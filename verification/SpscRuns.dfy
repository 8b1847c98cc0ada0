/** Producer and consumer interleaved, one load or store at a time. Whatever the
    interleaving, the ring is a bounded queue; and the consumer that writes its
    rows to flash, and goes back to read them again when a write fails, writes
    every row once. */
module SpscRuns {
  import opened Words
  import opened Arithmetic
  import opened SpscRing

  /** Where the producer stands between two atomic steps. */
  datatype Producer<T> = Idle | Filling(slot: nat, row: T) | Filled(slot: nat, row: T)

  /** The memory the two sides share, what each has seen of it, and ghost
      history: every row ever published, the unwrapped indices, the rows read
      since the last write, and the rows on flash. `done` is the cursor as it
      was after the last write. */
  datatype State<T> = State(
    cap: u32, slots: seq<T>, head: u32, tail: u32,
    producer: Producer<T>, seenTail: nat,
    seenHead: nat, cursor: nat, done: nat,
    accepted: seq<T>, tailIndex: nat, batch: seq<T>, flash: seq<T>)

  /** The queue that the ring stands for. */
  function Queue<T>(s: State<T>): seq<T>
    requires s.tailIndex <= |s.accepted|
  {
    s.accepted[s.tailIndex..]
  }

  datatype Action<T> =
    | Refuse(row: T, t: nat)        // load of tail returned index t: full
    | Reserve(row: T, t: nat)       // load of tail returned index t: not full
    | Scribble(garbage: T)          // part of the row is stored
    | Fill                          // the whole row is stored
    | Publish
    | LoadHead(h: nat)              // load of head returned index h
    | ReadRow                       // the row at the cursor is read
    | WriteRows                     // the rows read are on flash
    | GoBack                        // they are not: the cursor is put back
    | Consume(n: nat)               // the oldest n rows are given back

  ghost predicate Init<T>(s: State<T>) {
    && IsPow2(s.cap) && |s.slots| == s.cap
    && s.head == s.tail == 0 && s.tailIndex == 0 && s.accepted == s.batch == s.flash == []
    && s.producer.Idle? && s.seenTail == 0 && s.seenHead == 0 && s.cursor == 0 && s.done == 0
  }

  /** One atomic step. A load may return any index between the last one its
      side has seen and the current one: an acquire load is not promised the
      newest store. */
  ghost predicate Next<T>(s: State<T>, a: Action<T>, r: State<T>) {
    match a
    case Refuse(row, t) =>
      && s.producer.Idle? && s.seenTail <= t <= s.tailIndex
      && RingFull(s.head, Wrap(t), s.cap)
      && r == s.(seenTail := t)
    case Reserve(row, t) =>
      && s.producer.Idle? && s.seenTail <= t <= s.tailIndex
      && !RingFull(s.head, Wrap(t), s.cap)
      && r == s.(seenTail := t, producer := Filling(SlotOf(s.head, s.cap), row))
    case Scribble(garbage) =>
      && s.producer.Filling? && s.producer.slot < |s.slots|
      && r == s.(slots := s.slots[s.producer.slot := garbage])
    case Fill =>
      && s.producer.Filling? && s.producer.slot < |s.slots|
      && r == s.(slots := s.slots[s.producer.slot := s.producer.row],
                 producer := Filled(s.producer.slot, s.producer.row))
    case Publish =>
      && s.producer.Filled?
      && r == s.(head := Wrap(s.head + 1), producer := Idle, accepted := s.accepted + [s.producer.row])
    case LoadHead(h) =>
      && s.seenHead <= h <= |s.accepted|
      && r == s.(seenHead := h)
    case ReadRow =>
      && s.cap > 0
      && s.cursor < Wrap(Wrap(s.seenHead) - s.tail)
      && var slot := SlotOf(Wrap(s.tail + s.cursor), s.cap);
         slot < |s.slots| && r == s.(cursor := s.cursor + 1, batch := s.batch + [s.slots[slot]])
    case WriteRows => r == s.(done := s.cursor, batch := [], flash := s.flash + s.batch)
    case GoBack => r == s.(cursor := s.done, batch := [])
    case Consume(n) =>
      && n <= s.cursor == s.done
      && var k := Min(n, Wrap(Wrap(s.seenHead) - s.tail));
         0 <= k <= s.cursor
         && r == s.(tail := Wrap(s.tail + k), tailIndex := s.tailIndex + k, cursor := s.cursor - k, done := s.done - k)
  }

  /** The slot that an unwrapped index falls on. */
  function Home(k: nat, cap: nat): nat
    requires cap > 0
  {
    k % cap
  }

  /** Some index of an unconsumed row. */
  ghost predicate Held<T>(s: State<T>, k: nat) { s.tailIndex <= k < |s.accepted| }

  ghost predicate Inv<T>(s: State<T>) {
    && IsPow2(s.cap) && |s.slots| == s.cap && s.cap > 0
    && (forall k: nat :: Home(k, s.cap) < s.cap)
    && s.head == Wrap(|s.accepted|) && s.tail == Wrap(s.tailIndex)
    && s.tailIndex <= s.tailIndex + s.cursor <= s.seenHead <= |s.accepted| <= s.tailIndex + s.cap
    && s.seenTail <= s.tailIndex
    && |s.accepted| <= s.seenTail + s.cap
    && (forall k: nat :: Held(s, k) ==> s.slots[Home(k, s.cap)] == s.accepted[k])
    && s.done <= s.cursor
    && s.flash == s.accepted[..s.tailIndex + s.done]
    && s.batch == s.accepted[s.tailIndex + s.done..s.tailIndex + s.cursor]
    && (!s.producer.Idle? ==> s.producer.slot == Home(|s.accepted|, s.cap) && |s.accepted| < s.seenTail + s.cap)
    && (s.producer.Filled? ==> s.slots[s.producer.slot] == s.producer.row)
  }

  lemma CapFits(cap: nat)
    requires IsPow2(cap)
    ensures 1 <= cap <= 0x8000_0000
  {
    var k :| 0 <= k <= 31 && cap == Pow2(k);
    Pow2Of31();
    Pow2Grows(k, 31);
  }

  /** The slot about to be written holds no row that is still to be read. */
  lemma FreshSlot(h: nat, k: nat, cap: nat)
    requires cap >= 1 && k < h < k + cap
    ensures Home(h, cap) != Home(k, cap)
  {
    if h % cap == k % cap {
      var a, b := h / cap, k / cap;
      assert h - k == cap * a - cap * b;
      assert cap * a - cap * b == cap * (a - b);
      if a - b <= 0 { MulMono(cap, a - b, 0); } else { MulMono(cap, 1, a - b); }
      assert false;
    }
  }

  lemma SlotIsHome(k: nat, cap: u32)
    requires IsPow2(cap) && cap > 0
    ensures SlotOf(Wrap(k), cap) == Home(k, cap) < cap
  {
    SlotIsMod(k, cap);
  }

  lemma InitInv<T>(s: State<T>)
    requires Init(s)
    ensures Inv(s)
  {
    CapFits(s.cap);
  }

  /** The invariant is kept by every step of either side. */
  lemma NextInv<T>(s: State<T>, a: Action<T>, r: State<T>)
    requires Inv(s) && Next(s, a, r)
    ensures Inv(r)
  {
    hide RingFull, SlotOf, Home, IsPow2, Wrap;
    match a
    case Scribble(x) => WriteInv(s, r, x);
    case Fill => WriteInv(s, r, s.producer.row);
    case Publish => PublishInv(s, r);
    case Refuse(_, t) => ReserveInv(s, a, t, r);
    case Reserve(_, t) => ReserveInv(s, a, t, r);
    case LoadHead(_) => ReadInv(s, a, r);
    case ReadRow => ReadInv(s, a, r);
    case WriteRows => FlashInv(s, a, r);
    case GoBack => FlashInv(s, a, r);
    case Consume(n) => ConsumeInv(s, n, r);
  }

  lemma ReadInv<T>(s: State<T>, a: Action<T>, r: State<T>)
    requires Inv(s) && Next(s, a, r) && (a.LoadHead? || a.ReadRow?)
    ensures Inv(r)
  {
    hide Home, IsPow2, SlotOf, Wrap;
    if a.ReadRow? {
      ReadsAccepted(s);
      var d, k := s.tailIndex + s.done, s.tailIndex + s.cursor;
      assert s.accepted[d..k + 1] == s.accepted[d..k] + [s.accepted[k]];
    }
    assert forall k: nat :: Held(r, k) <==> Held(s, k);
  }

  /** What a write puts on flash continues what is there. */
  lemma FlashInv<T>(s: State<T>, a: Action<T>, r: State<T>)
    requires Inv(s) && Next(s, a, r) && (a.WriteRows? || a.GoBack?)
    ensures Inv(r)
  {
    hide Home, IsPow2, SlotOf, Wrap;
    var d, k := s.tailIndex + s.done, s.tailIndex + s.cursor;
    assert s.accepted[..k] == s.accepted[..d] + s.accepted[d..k];
    assert forall k: nat :: Held(r, k) <==> Held(s, k);
  }

  /** A refusal happens exactly when the tail that was loaded shows a full
      ring: cap rows lie between it and the head. */
  lemma RefusedIffSeenFull<T>(s: State<T>, t: nat)
    requires Inv(s) && s.producer.Idle? && s.seenTail <= t <= s.tailIndex
    ensures RingFull(s.head, Wrap(t), s.cap) <==> |s.accepted| - t == s.cap
  {
    CapFits(s.cap);
    WrapGap(|s.accepted|, t);
  }

  lemma ReserveInv<T>(s: State<T>, a: Action<T>, t: nat, r: State<T>)
    requires Inv(s) && Next(s, a, r) && (a.Reserve? || a.Refuse?) && t == a.t
    ensures Inv(r)
  {
    hide Home, IsPow2, RingFull, SlotOf, Wrap;
    RefusedIffSeenFull(s, t);
    SlotIsHome(|s.accepted|, s.cap);
    assert forall k: nat :: Held(r, k) <==> Held(s, k);
  }

  /** Storing into the reserved slot leaves every unconsumed row as it was. */
  lemma WriteInv<T>(s: State<T>, r: State<T>, x: T)
    requires Inv(s) && s.producer.Filling? && s.producer.slot < |s.slots|
    requires r == s.(slots := s.slots[s.producer.slot := x]) ||
             (x == s.producer.row
              && r == s.(slots := s.slots[s.producer.slot := x], producer := Filled(s.producer.slot, x)))
    ensures Inv(r)
  {
    hide Home, IsPow2, SlotOf;
    CapFits(s.cap);
    forall k: nat | Held(s, k) ensures r.slots[Home(k, s.cap)] == s.accepted[k] {
      FreshSlot(|s.accepted|, k, s.cap);
    }
    assert forall k: nat :: Held(r, k) <==> Held(s, k);
  }

  lemma PublishInv<T>(s: State<T>, r: State<T>)
    requires Inv(s) && Next(s, Publish, r)
    ensures Inv(r)
  {
    hide Home, IsPow2, SlotOf;
    var n := |s.accepted|;
    WrapAdd(n, 1);
    forall k: nat | Held(r, k) ensures r.slots[Home(k, s.cap)] == r.accepted[k] {
      if k < n { assert Held(s, k); }
    }
  }

  /** What the consumer makes of the head it loaded and its tail. */
  lemma SeenGap<T>(s: State<T>)
    requires Inv(s)
    ensures Wrap(Wrap(s.seenHead) - s.tail) == s.seenHead - s.tailIndex >= s.cursor
  {
    hide Home, IsPow2, SlotOf;
    CapFits(s.cap);
    WrapGap(s.seenHead, s.tailIndex);
  }

  lemma ConsumeInv<T>(s: State<T>, n: nat, r: State<T>)
    requires Inv(s) && Next(s, Consume(n), r)
    ensures Inv(r)
  {
    hide Home, IsPow2, SlotOf, Wrap;
    SeenGap(s);
    WrapAdd(s.tailIndex, n);
    assert forall k: nat :: Held(r, k) ==> Held(s, k);
  }

  /** The slot read at the cursor holds the row accepted under that index: it
      is published, and nothing is being stored into it. */
  lemma ReadsAccepted<T>(s: State<T>)
    requires Inv(s) && s.cursor < Wrap(Wrap(s.seenHead) - s.tail)
    ensures var k := s.tailIndex + s.cursor;
            var slot := SlotOf(Wrap(s.tail + s.cursor), s.cap);
            && Held(s, k) && k < s.seenHead && slot < |s.slots| && s.slots[slot] == s.accepted[k]
            && (!s.producer.Idle? ==> slot != s.producer.slot)
  {
    hide Home, IsPow2, SlotOf, Wrap;
    var k := s.tailIndex + s.cursor;
    SeenGap(s);
    WrapAdd(s.tailIndex, s.cursor);
    SlotIsHome(k, s.cap);
    assert Held(s, k);
    FreshSlotOf(s, k);
  }

  lemma FreshSlotOf<T>(s: State<T>, k: nat)
    requires Inv(s) && Held(s, k)
    ensures !s.producer.Idle? ==> Home(k, s.cap) != s.producer.slot
  {
    hide Home, IsPow2, SlotOf;
    if !s.producer.Idle? { FreshSlot(|s.accepted|, k, s.cap); }
  }

  lemma QueueBounds<T>(s: State<T>)
    requires Inv(s)
    ensures s.tailIndex <= |s.accepted| && |Queue(s)| <= s.cap && s.tail == Wrap(s.tailIndex)
    ensures s.cursor <= s.seenHead - s.tailIndex <= |Queue(s)|
    ensures s.producer.Filled? ==> |Queue(s)| < s.cap
  {
    hide Home, IsPow2, Wrap;
  }

  lemma ConsumeDrops<T>(s: State<T>, n: nat, r: State<T>)
    requires Inv(s) && Next(s, Consume(n), r)
    ensures n <= |Queue(s)| && Queue(r) == Queue(s)[n..]
  {
    hide Home, IsPow2, Held, Wrap;
    SeenGap(s);
  }

  /** Refinement: publishing appends to a queue that has room, consuming drops
      rows that were there from the front, and no other step shows. */
  lemma Refines<T>(s: State<T>, a: Action<T>, r: State<T>)
    requires Inv(s) && Next(s, a, r)
    ensures Inv(r)
    ensures match a
            case Publish => |Queue(s)| < s.cap && Queue(r) == Queue(s) + [s.producer.row]
            case Consume(n) => n <= |Queue(s)| && Queue(r) == Queue(s)[n..]
            case _ => Queue(r) == Queue(s)
  {
    hide Inv, SlotOf, RingFull, Wrap;
    NextInv(s, a, r);
    QueueBounds(s);
    QueueBounds(r);
    if a.Consume? { ConsumeDrops(s, a.n, r); }
  }

  // ---- whole runs --------------------------------------------------------

  ghost predicate Run<T>(states: seq<State<T>>, actions: seq<Action<T>>) {
    && |states| == |actions| + 1 && Init(states[0])
    && forall i :: 0 <= i < |actions| ==> Next(states[i], actions[i], states[i + 1])
  }

  lemma {:induction false} RunInv<T>(states: seq<State<T>>, actions: seq<Action<T>>, n: nat)
    requires Run(states, actions) && n < |states|
    ensures Inv(states[n])
    decreases n
  {
    hide Inv, Init, Next;
    if n == 0 {
      InitInv(states[0]);
    } else {
      RunInv(states, actions, n - 1);
      assert Next(states[n - 1], actions[n - 1], states[n - 1 + 1]);
      NextInv(states[n - 1], actions[n - 1], states[n]);
    }
  }

  /** In every run, whatever writes fail, the rows on flash are the first of
      the rows the producer published, in order, none left out, written twice
      or torn; and every row not on flash is still in the ring. */
  lemma ReachFlashOnce<T>(states: seq<State<T>>, actions: seq<Action<T>>, n: nat)
    requires Run(states, actions) && n < |states|
    ensures var s := states[n];
            && s.tailIndex + s.done <= |s.accepted| && s.accepted == s.flash + Queue(s)[s.done..]
            && s.flash == s.accepted[..s.tailIndex + s.done]
  {
    hide Run, Home, IsPow2, Wrap;
    RunInv(states, actions, n);
    var s := states[n];
    var k := s.tailIndex + s.done;
    assert s.accepted[s.tailIndex..][s.done..] == s.accepted[k..];
    assert s.accepted == s.accepted[..k] + s.accepted[k..];
  }
}
