/** The index arithmetic of the single-producer, single-consumer ring: indices
    are free-running uint32_t counters, slots are `index & (cap - 1)`. */
module SpscRing {
  import opened Words
  import opened Arithmetic

  // ---- powers of two and masks -------------------------------------------

  function Pow2(k: nat): (p: nat)
    ensures p >= 1
  {
    if k == 0 then 1 else 2 * Pow2(k - 1)
  }

  predicate IsPow2(n: nat) { exists k :: 0 <= k <= 31 && n == Pow2(k) }

  /** Bitwise and, bit by bit. */
  function BitAnd(x: nat, y: nat): nat {
    if x == 0 || y == 0 then 0 else (x % 2) * (y % 2) + 2 * BitAnd(x / 2, y / 2)
  }

  lemma HalfMod(x: nat, m: nat)
    requires m >= 1
    ensures x % (2 * m) == x % 2 + 2 * ((x / 2) % m)
  {
    var q, r := (x / 2) / m, (x / 2) % m;
    assert x == 2 * m * q + (2 * r + x % 2);
    DivMod(x, 2 * m, q, 2 * r + x % 2);
  }

  /** Masking with a power of two less one is the remainder. */
  lemma {:induction false} MaskIsMod(x: nat, k: nat)
    ensures BitAnd(x, Pow2(k) - 1) == x % Pow2(k)
  {
    if k > 0 {
      var m := Pow2(k - 1);
      MaskIsMod(x / 2, k - 1);
      HalfMod(x, m);
      assert 2 * m - 1 > 0 ==> (2 * m - 1) / 2 == m - 1 && (2 * m - 1) % 2 == 1;
    }
  }

  lemma {:induction false} Pow2Splits(j: nat, k: nat)
    requires k <= j
    ensures Pow2(j) == Pow2(k) * Pow2(j - k)
    decreases j
  {
    if k < j { Pow2Splits(j - 1, k); }
  }

  lemma Pow2Divides(k: nat)
    requires k <= 31
    ensures exists q: nat :: U32 == Pow2(k) * q
  {
    Pow2Splits(32, k);
    Pow2Of31();
    assert U32 == Pow2(k) * Pow2(32 - k);
  }

  /** The slot of a free-running index: the wrap at 2^32 does not show. */
  lemma SlotIsMod(index: nat, cap: nat)
    requires IsPow2(cap)
    ensures BitAnd(Wrap(index), cap - 1) == index % cap
  {
    var k :| 0 <= k <= 31 && cap == Pow2(k);
    MaskIsMod(Wrap(index), k);
    Pow2Divides(k);
    var q: nat :| U32 == cap * q;
    ModOfMod(index, cap, q);
  }

  lemma ModOfMod(x: nat, c: nat, q: nat)
    requires c >= 1 && c * q >= 1
    ensures (x % (c * q)) % c == x % c
  {
    var m := c * q;
    var a, b := x / m, x % m;
    var d, e := b / c, b % c;
    Regroup(c, q, a, d);
    assert x == c * (q * a + d) + e;
    assert q * a >= 0;
    DivMod(x, c, q * a + d, e);
  }

  lemma Regroup(c: nat, q: nat, a: nat, d: nat)
    ensures c * q * a + c * d == c * (q * a + d)
  {
  }

  /** spscPow2Floor. */
  method Pow2Floor(n: u32) returns (p: u32)
    ensures n == 0 ==> p == 0
    ensures n > 0 ==> IsPow2(p) && p <= n < 2 * p
  {
    p := 1;
    ghost var k := 0;
    while n > 0 && p <= n / 2
      invariant 0 <= k <= 31 && p == Pow2(k) && p < U32 && (n > 0 ==> p <= n)
      decreases n - p
    {
      BitBound(k, p, n);
      p := p * 2;
      k := k + 1;
    }
    if n == 0 { p := 0; }
  }

  lemma BitBound(k: nat, p: nat, n: u32)
    requires p == Pow2(k) && 2 * p <= n
    ensures k < 31
  {
    if k >= 31 {
      Pow2Of31();
      Pow2Grows(31, k);
    }
  }

  lemma {:induction false} Pow2Grows(j: nat, k: nat)
    requires j <= k
    ensures Pow2(j) <= Pow2(k)
    decreases k
  {
    if j < k { Pow2Grows(j, k - 1); }
  }

  lemma Pow2Of31()
    ensures Pow2(31) == 0x8000_0000
  {
    assert Pow2(4) == 16;
    assert Pow2(8) == 256;
    assert Pow2(12) == 0x1000;
    assert Pow2(16) == 0x1_0000;
    assert Pow2(20) == 0x10_0000;
    assert Pow2(24) == 0x100_0000;
    assert Pow2(28) == 0x1000_0000;
  }

  // ---- the operations, given the values that their loads return ----------

  predicate RingFull(head: u32, tail: u32, cap: u32) { cap == 0 || Wrap(head - tail) >= cap }

  function SlotOf(index: u32, cap: u32): nat
    requires cap > 0
  {
    BitAnd(index, cap - 1)
  }

  /** A ring of rows. head is stored by the producer only, tail by the consumer
      only; each loads the other's index, and the parameters seenTail and
      seenHead are the values that those loads return. */
  class Ring {
    var head: u32
    var tail: u32
    var cap: u32

    constructor (n: u32)
      ensures head == tail == 0 && (n > 0 ==> IsPow2(cap) && cap <= n < 2 * cap) && (n == 0 ==> cap == 0)
    {
      head, tail := 0, 0;
      var c := Pow2Floor(n);
      cap := c;
    }

    method Reserve(seenTail: u32) returns (ok: bool, slot: nat)
      ensures ok == !RingFull(head, seenTail, cap)
      ensures ok ==> slot == SlotOf(head, cap)
    {
      ok, slot := false, 0;
      if cap == 0 { return; }
      if Wrap(head - seenTail) >= cap { return; }
      ok, slot := true, SlotOf(head, cap);
    }

    method Publish()
      modifies this`head
      ensures head == Wrap(old(head) + 1)
    {
      head := Wrap(head + 1);
    }

    method Count(seenHead: u32) returns (n: u32)
      ensures n == Wrap(seenHead - tail)
    {
      n := Wrap(seenHead - tail);
    }

    method Slot(i: u32) returns (slot: nat)
      requires cap > 0
      ensures slot == SlotOf(Wrap(tail + i), cap)
    {
      slot := SlotOf(Wrap(tail + i), cap);
    }

    method Consume(seenHead: u32, n: u32) returns (k: u32)
      modifies this`tail
      ensures k == Min(n, Wrap(seenHead - old(tail))) && tail == Wrap(old(tail) + k)
    {
      var have := Count(seenHead);
      k := if n > have then have else n;
      tail := Wrap(tail + k);
    }
  }
}
