/**
 Unsigned 32-bit words as the driver uses them: ring indexes run freely and wrap, differences are
 taken modulo 2^32, and a slot is found by masking. Every lemma here relates a word to the
 unbounded counter it stands for.
 */
module Words {

  const WORD: nat := 0x1_0000_0000

  type u32 = n: nat | n < 0x1_0000_0000

  /** The word that an unbounded counter shows. */
  function Low(counter: nat): u32 {
    counter % WORD
  }

  /** `a + n` in UINT32 arithmetic. */
  function Add(a: u32, n: u32): u32 {
    if a + n < WORD then a + n else a + n - WORD
  }

  /** `a - b` in UINT32 arithmetic. */
  function Sub(a: u32, b: u32): u32 {
    if b <= a then a - b else a - b + WORD
  }

  function Min(a: nat, b: nat): nat {
    if a <= b then a else b
  }

  /** Advancing a word advances the counter behind it. */
  lemma {:induction false} LowAdd(counter: nat, n: u32)
    ensures Add(Low(counter), n) == Low(counter + n)
  {
  }

  /** The wrapped difference of two words is the true difference of counters less than 2^32 apart. */
  lemma {:induction false} LowSub(a: nat, b: nat)
    requires b <= a < b + WORD
    ensures Sub(Low(a), Low(b)) == a - b
  {
  }

  function Pow2(k: nat): nat
    ensures Pow2(k) > 0
  {
    if k == 0 then 1 else 2 * Pow2(k - 1)
  }

  /** A ring size: a power of two that fits an index word. */
  ghost predicate RingSize(n: nat) {
    exists k: nat :: k < 32 && n == Pow2(k)
  }

  /** `a & b` on natural numbers, bit by bit. */
  function BitAnd(a: nat, b: nat): nat
    decreases a
  {
    if a == 0 || b == 0 then 0 else 2 * BitAnd(a / 2, b / 2) + (a % 2) * (b % 2)
  }

  /** Masking with a power of two less one is the remainder. */
  lemma {:induction false} MaskIsMod(i: nat, k: nat)
    ensures BitAnd(i, Pow2(k) - 1) == i % Pow2(k)
    decreases i
  {
    if i != 0 && k != 0 {
      var h := Pow2(k - 1);
      MaskIsMod(i / 2, k - 1);
      assert (2 * h - 1) / 2 == h - 1 && (2 * h - 1) % 2 == 1;
      HalfMod(i, h);
    }
  }

  lemma {:induction false} HalfMod(i: nat, h: nat)
    requires h > 0
    ensures i % (2 * h) == 2 * ((i / 2) % h) + i % 2
  {
    var q, r := (i / 2) / h, (i / 2) % h;
    assert i / 2 == q * h + r;
    assert i == (2 * h) * q + (2 * r + i % 2) by {
      assert 2 * (q * h) == (2 * h) * q;
    }
    ModUnique(i, 2 * h, q, 2 * r + i % 2);
  }

  lemma {:induction false} MulBound(n: int, d: int)
    requires n > 0
    ensures d >= 1 ==> n * d >= n
    ensures d <= -1 ==> n * d <= -n
    ensures d == 0 ==> n * d == 0
  {
  }

  lemma {:induction false} ModUnique(a: int, n: int, q: int, r: int)
    requires 0 <= r < n && a == n * q + r
    ensures a % n == r
  {
    MulBound(n, a / n - q);
    assert n * (a / n - q) == n * (a / n) - n * q;
  }

  lemma {:induction false} ModAdd(a: nat, n: nat, i: nat)
    requires i < n
    ensures (a + i) % n == if a % n + i < n then a % n + i else a % n + i - n
  {
    var q, r := a / n, a % n;
    if r + i < n {
      ModUnique(a + i, n, q, r + i);
    } else {
      assert n * (q + 1) == n * q + n;
      ModUnique(a + i, n, q + 1, r + i - n);
    }
  }

  lemma {:induction false} DivUnique(a: int, n: int, q: int, r: int)
    requires 0 <= r < n && a == n * q + r
    ensures a / n == q
  {
    MulBound(n, a / n - q);
    assert n * (a / n - q) == n * (a / n) - n * q;
  }

  lemma {:induction false} Pow2Split(k: nat, m: nat)
    requires k <= m
    ensures Pow2(m) == Pow2(k) * Pow2(m - k)
    decreases m
  {
    if k < m {
      Pow2Split(k, m - 1);
      assert Pow2(m - k) == 2 * Pow2(m - 1 - k);
    }
  }

  lemma {:induction false} Pow2Word()
    ensures Pow2(32) == WORD
  {
    assert Pow2(8) == 256;
    Pow2Split(8, 16);
    Pow2Split(16, 32);
  }

  /** Reading a counter through its word does not change the slot it masks to. */
  lemma {:induction false} SlotOfWord(counter: nat, size: nat)
    requires RingSize(size)
    ensures BitAnd(Low(counter), size - 1) == counter % size
  {
    var k: nat :| k < 32 && size == Pow2(k);
    MaskIsMod(Low(counter), k);
    Pow2Word();
    Pow2Split(k, 32);
    var m := Pow2(32 - k);
    ModMod(counter, size, m);
  }

  lemma {:induction false} MaskWord(a: u32, size: nat)
    requires RingSize(size)
    ensures BitAnd(a, size - 1) == a % size
  {
    assert Low(a) == a;
    SlotOfWord(a, size);
  }

  lemma {:induction false} MaskRange(a: u32, size: nat)
    requires RingSize(size)
    ensures BitAnd(a, size - 1) < size
  {
    MaskWord(a, size);
    RingSizeBounds(size);
    ModRange(a, size);
  }

  lemma {:induction false} MaskBelow(a: u32, size: nat)
    requires RingSize(size) && a < size
    ensures BitAnd(a, size - 1) == a
  {
    MaskWord(a, size);
    ModUnique(a, size, 0, a);
  }

  lemma {:induction false} MaskSum(a: u32, i: u32, size: nat)
    requires RingSize(size)
    ensures BitAnd(Add(a, i), size - 1) == (a + i) % size
  {
    assert Add(a, i) == Low(a + i);
    SlotOfWord(a + i, size);
  }

  /** Masking a sum of words goes round the ring from where the first word masks to. */
  lemma {:induction false} MaskAdd(size: nat, a: u32, i: u32)
    requires RingSize(size) && i < size
    ensures var m := BitAnd(a, size - 1);
            m < size && BitAnd(Add(a, i), size - 1) == if m + i < size then m + i else m + i - size
  {
    MaskWord(a, size);
    MaskSum(a, i, size);
    ModRange(a, size);
    ModAdd(a, size, i);
  }

  lemma {:induction false} ModRange(a: nat, n: nat)
    requires n > 0
    ensures 0 <= a % n < n
  {
  }

  lemma {:induction false} ModMod(a: nat, n: nat, m: nat)
    requires n > 0 && m > 0
    ensures n * m > 0
    ensures (a % (n * m)) % n == a % n
  {
    assert n * m > 0;
    var q, r := a / (n * m), a % (n * m);
    var q2, r2 := r / n, r % n;
    assert a == (n * m) * q + r;
    assert a == n * (m * q + q2) + r2 by {
      assert (n * m) * q == n * (m * q);
    }
    ModUnique(a, n, m * q + q2, r2);
  }

  /** Slots of a live window no wider than the ring are pairwise distinct. */
  lemma {:induction false} SlotsDistinct(a: nat, b: nat, size: nat)
    requires a < b < a + size
    ensures a % size != b % size
  {
    MulBound(size, b / size - a / size);
    assert size * (b / size - a / size) == size * (b / size) - size * (a / size);
  }

  lemma {:induction false} RingSizeBounds(size: nat)
    requires RingSize(size)
    ensures 0 < size <= 0x8000_0000
  {
    var k: nat :| k < 32 && size == Pow2(k);
    Pow2Word();
    Pow2Monotone(k, 31);
  }

  lemma {:induction false} Pow2Monotone(k: nat, m: nat)
    requires k <= m
    ensures Pow2(k) <= Pow2(m)
    decreases m
  {
    if k < m {
      Pow2Monotone(k, m - 1);
    }
  }
}
