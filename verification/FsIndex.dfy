/** The file index: a table that grows by doubling and, when it cannot grow,
    gives up its oldest entry and says so. */
module FsIndex {
  import opened Words
  import opened Options

  datatype Kind = RawKind | ChangesKind | SnapshotKind | BookendKind

  datatype Tier = TierA | TierB | TierC

  /** fsTierForKind. */
  function TierOf(k: Kind): Tier {
    match k
    case SnapshotKind => TierB
    case BookendKind => TierC
    case RawKind => TierA
    case ChangesKind => TierA
  }

  const MODE_UNKNOWN: u8 := 0xFF
  const HARD_MAX := 60000

  datatype FsEntry = FsEntry(index: u32, bytes: u32, bootId: u32, kind: Kind, mode: u8,
                             closed: bool, hasSha: bool, active: bool, hydrated: bool)

  datatype Ext = ExtLog | ExtPart | ExtMeta

  /** What a directory name says, once parsed. */
  datatype FsName = FsName(index: u32, bootId: u32, kind: Kind, ext: Ext)

  // ---- the table as a sequence -------------------------------------------

  function Find(t: seq<FsEntry>, index: u32): (at: nat)
    ensures at <= |t|
    ensures at < |t| ==> t[at].index == index
    ensures forall i :: 0 <= i < at ==> t[i].index != index
  {
    if t == [] || t[0].index == index then 0 else 1 + Find(t[1..], index)
  }

  predicate Distinct(t: seq<FsEntry>) {
    forall i, j :: 0 <= i < j < |t| ==> t[i].index != t[j].index
  }

  predicate Ordered(t: seq<FsEntry>) {
    forall i, j :: 0 <= i < j < |t| ==> t[i].index <= t[j].index
  }

  /** In index order, each index once. */
  predicate Strict(t: seq<FsEntry>) { forall i, j :: 0 <= i < j < |t| ==> t[i].index < t[j].index }

  /** at is the first of the lowest-indexed inactive entries of t[..n], or |t|
      when there is none. */
  predicate IsOldest(t: seq<FsEntry>, n: nat, at: nat)
    requires n <= |t|
  {
    if at == |t| then forall i :: 0 <= i < n ==> t[i].active
    else
      && at < n && !t[at].active
      && (forall i :: 0 <= i < n && !t[i].active ==> t[at].index <= t[i].index)
      && (forall i :: 0 <= i < at && !t[i].active ==> t[at].index < t[i].index)
  }

  function Oldest(t: seq<FsEntry>, n: nat): (at: nat)
    requires n <= |t|
    ensures IsOldest(t, n, at)
  {
    if n == 0 then |t|
    else
      var o := Oldest(t, n - 1);
      if t[n - 1].active then o
      else if o == |t| || t[n - 1].index < t[o].index then n - 1
      else o
  }

  /** fsTableAddOrEvict: the table, and the entry that lost its slot. */
  function AddOrEvict(t: seq<FsEntry>, e: FsEntry, room: bool): (seq<FsEntry>, Option<FsEntry>) {
    var at := Find(t, e.index);
    if at < |t| then (t[at := e], None)
    else if room then (t + [e], None)
    else
      var o := Oldest(t, |t|);
      if o == |t| || e.index < t[o].index then (t, Some(e)) else (t[o := e], Some(t[o]))
  }

  function Drop(t: seq<FsEntry>, i: nat): seq<FsEntry>
    requires i < |t|
  {
    t[..i] + t[i + 1..]
  }

  /** The entry the scan makes of a name. */
  function Scanned(n: FsName): FsEntry {
    FsEntry(n.index, 0, n.bootId, n.kind, MODE_UNKNOWN, n.ext == ExtLog, false, false, false)
  }

  /** fsScanFeed, for a table that holds at most c entries. */
  function Feed(t: seq<FsEntry>, name: Option<FsName>, c: nat): (seq<FsEntry>, Option<FsEntry>) {
    if name.None? || name.value.ext == ExtMeta then (t, None)
    else
      var n := name.value;
      var at := Find(t, n.index);
      if at == |t| then AddOrEvict(t, Scanned(n), |t| < c)
      else if t[at].closed || n.ext != ExtLog then (t, None)
      else (t[at := t[at].(closed := true, hydrated := false)], None)
  }

  /** What a scan counts: names, data files among them, sidecars, foreign
      names, second names of one index, and files that got no slot. */
  datatype ScanStats = ScanStats(entries: nat, files: nat, metas: nat, unparsed: nat, duplicates: nat,
                                 evictedForRoom: nat)

  const NO_SCAN := ScanStats(0, 0, 0, 0, 0, 0)

  /** The counters after one more name is fed to t. */
  function Tally(st: ScanStats, t: seq<FsEntry>, name: Option<FsName>, c: nat): ScanStats {
    var s := st.(entries := st.entries + 1);
    if name.None? then s.(unparsed := s.unparsed + 1)
    else if name.value.ext == ExtMeta then s.(metas := s.metas + 1)
    else
      var f := s.(files := s.files + 1);
      if Find(t, name.value.index) < |t| then f.(duplicates := f.duplicates + 1)
      else if Feed(t, name, c).1.Some? then f.(evictedForRoom := f.evictedForRoom + 1)
      else f
  }

  // ---- growth ------------------------------------------------------------

  /** growTable asks for twice the room, 32 at first, never beyond HARD_MAX. */
  function Want(cap: nat): nat {
    if cap == 0 then 32 else Min(2 * cap, HARD_MAX)
  }

  /** Growth from cap succeeds: the allocator can give that many entries. */
  predicate Grows(cap: nat, memory: nat) { cap < HARD_MAX && Want(cap) <= memory }

  /** The capacity at which growth fails for good. */
  function Limit(cap: nat, memory: nat): (c: nat)
    ensures cap <= c
    decreases HARD_MAX - cap
  {
    if Grows(cap, memory) then Limit(Want(cap), memory) else cap
  }

  /** The capacities a table grown from nothing can have. */
  predicate Rung(c: nat) {
    c in {0, 32, 64, 128, 256, 512, 1024, 2048, 4096, 8192, 16384, 32768, 60000}
  }

  /** No more than memory gives, and as much of it as doubling from 32 up to
      60000 can use. */
  lemma {:induction false} LimitMeans(cap: nat, memory: nat)
    requires Rung(cap)
    ensures var c := Limit(cap, memory);
            && Rung(c) && cap <= c && (c > cap ==> c <= memory)
            && (c == 60000 || memory < if c == 0 then 32 else Min(2 * c, 60000))
    decreases HARD_MAX - cap
  {
    if Grows(cap, memory) { LimitMeans(Want(cap), memory); }
  }

  // ---- the table in place ------------------------------------------------

  class FsTable {
    var v: array<FsEntry>
    var count: nat
    const memory: nat

    ghost predicate Valid()
      reads this
    {
      count <= v.Length && Limit(v.Length, memory) == Limit(0, memory)
    }

    ghost function Contents(): seq<FsEntry>
      requires Valid()
      reads this, v
    {
      v[..count]
    }

    /** The most entries the table will ever hold. */
    ghost function Capacity(): nat { Limit(0, memory) }

    constructor (memory: nat)
      ensures Valid() && Contents() == [] && this.memory == memory && fresh(v)
    {
      this.memory := memory;
      v, count := new FsEntry[0], 0;
    }

    method FindEntry(index: u32) returns (at: nat)
      requires Valid()
      ensures at == Find(Contents(), index)
    {
      hide Limit, Find;
      at := 0;
      while at < count && v[at].index != index
        invariant at <= count && forall i :: 0 <= i < at ==> v[i].index != index
      {
        at := at + 1;
      }
    }

    method Grow() returns (ok: bool)
      requires Valid()
      modifies this`v
      ensures Valid() && Contents() == old(Contents())
      ensures ok == Grows(old(v).Length, memory)
      ensures ok ==> v.Length == Want(old(v).Length) && fresh(v)
      ensures !ok ==> v == old(v)
    {
      ok := false;
      if v.Length >= HARD_MAX { return; }
      var want := Want(v.Length);
      if want > memory { return; }
      var blank := FsEntry(0, 0, 0, RawKind, 0, false, false, false, false);
      var old_ := v;
      var w := new FsEntry[want](i requires 0 <= i < want reads this, old_ =>
        if i < count && i < old_.Length then old_[i] else blank);
      v := w;
      assert v[..count] == old_[..count];
      ok := true;
    }

    /** Room for one more entry, grown if need be. */
    method MakeRoom() returns (ok: bool)
      requires Valid()
      modifies this`v
      ensures Valid() && Contents() == old(Contents())
      ensures ok == (count < Capacity())
      ensures ok ==> count < v.Length
      ensures v == old(v) || fresh(v)
    {
      ok := true;
      if count >= v.Length { ok := Grow(); }
    }

    method OldestEntry() returns (oldest: nat)
      requires Valid()
      ensures oldest == Oldest(Contents(), count)
    {
      hide Limit, IsOldest;
      ghost var t := Contents();
      oldest := count;
      for i := 0 to count
        invariant oldest == Oldest(t, i) <= count
      {
        assert t[i] == v[i] && (oldest < count ==> t[oldest] == v[oldest]);
        if !v[i].active && (oldest == count || v[i].index < v[oldest].index) { oldest := i; }
      }
    }

    method AddOrEvictEntry(e: FsEntry) returns (evicted: Option<FsEntry>)
      requires Valid()
      modifies this, v
      ensures Valid() && (Contents(), evicted) == AddOrEvict(old(Contents()), e, old(count) < Capacity())
      ensures v == old(v) || fresh(v)
    {
      hide Limit, Find;
      ghost var t := Contents();
      evicted := None;
      var at := FindEntry(e.index);
      if at < count {
        v[at] := e;
        return;
      }
      var room := MakeRoom();
      if room {
        v[count] := e;
        count := count + 1;
        assert Contents() == t + [e];
        return;
      }
      var oldest := OldestEntry();
      if oldest == count || e.index < v[oldest].index { return Some(e); }
      evicted := Some(v[oldest]);
      v[oldest] := e;
    }

    method FeedName(name: Option<FsName>, st: ScanStats) returns (evicted: Option<FsEntry>, st': ScanStats)
      requires Valid()
      modifies this, v
      ensures Valid() && (Contents(), evicted) == Feed(old(Contents()), name, Capacity())
      ensures st' == Tally(st, old(Contents()), name, Capacity())
      ensures v == old(v) || fresh(v)
    {
      hide Limit, AddOrEvict;
      evicted, st' := None, st.(entries := st.entries + 1);
      if name.None? {
        st' := st'.(unparsed := st'.unparsed + 1);
        return;
      }
      var n := name.value;
      if n.ext == ExtMeta {
        st' := st'.(metas := st'.metas + 1);
        return;
      }
      st' := st'.(files := st'.files + 1);
      var at := FindEntry(n.index);
      if at < count {
        st' := st'.(duplicates := st'.duplicates + 1);
        if v[at].closed || n.ext != ExtLog { return; }
        v[at] := v[at].(closed := true, hydrated := false);
        return;
      }
      evicted := AddOrEvictEntry(Scanned(n));
      if evicted.Some? { st' := st'.(evictedForRoom := st'.evictedForRoom + 1); }
    }

    /** fsTableDrop: the later entries move down by one. */
    method DropEntry(at: nat)
      requires Valid()
      modifies this`count, v
      ensures Valid() && v == old(v)
      ensures Contents() == if at < old(count) then Drop(old(Contents()), at) else old(Contents())
    {
      hide Limit;
      if at >= count { return; }
      ghost var t := Contents();
      CloseGap(at);
      count := count - 1;
      assert Contents() == Drop(t, at);
    }

    method CloseGap(at: nat)
      requires Valid() && at < count
      modifies v
      ensures Valid()
      ensures forall k :: 0 <= k < at ==> v[k] == old(v[k])
      ensures forall k :: at <= k < count - 1 ==> v[k] == old(v[k + 1])
    {
      hide Limit;
      ghost var t := Contents();
      var i := at;
      while i + 1 < count
        invariant at <= i < count == |t| && Valid()
        invariant forall k :: 0 <= k < at ==> v[k] == t[k]
        invariant forall k :: at <= k < i ==> v[k] == t[k + 1]
        invariant forall k :: i <= k < count ==> v[k] == t[k]
      {
        v[i] := v[i + 1];
        i := i + 1;
      }
    }

    /** fsTableSort: insertion sort by index. */
    method Sort()
      requires Valid()
      modifies v
      ensures Valid() && Contents() == Sorted(old(Contents()))
    {
      hide Slot, Limit, Inserted;
      ghost var was := Contents();
      for i := 0 to count
        invariant Valid() && count == |was|
        invariant v[..i] == Sorted(was[..i]) && forall k :: i <= k < count ==> v[k] == was[k]
      {
        assert was[..i + 1][..i] == was[..i];
        InsertLast(i);
      }
      assert was[..count] == was;
    }

    method InsertLast(i: nat)
      requires Valid() && i < count
      modifies v
      ensures Valid() && v[..i + 1] == Inserted(old(v[..i]), old(v[i]))
      ensures forall k :: i < k < count ==> v[k] == old(v[k])
    {
      hide Slot, Limit;
      ghost var t := v[..i];
      var x := v[i];
      var j := ShiftAbove(i, x);
      v[j] := x;
      Joined(t, x, j, v[..i + 1]);
    }

    /** Entries before i with a higher index move up by one; j is free. */
    method ShiftAbove(i: nat, x: FsEntry) returns (j: nat)
      requires i < count <= v.Length
      modifies v
      ensures j == Slot(old(v[..i]), x) <= i
      ensures forall k :: 0 <= k < j || i < k < v.Length ==> v[k] == old(v[k])
      ensures forall k :: j < k <= i ==> v[k] == old(v[k - 1])
    {
      hide Slot;
      ghost var t, s := v[..i], Slot(v[..i], x);
      j := i;
      while j > 0 && v[j - 1].index > x.index
        invariant s <= j <= i
        invariant forall k :: 0 <= k <= j || i < k < v.Length ==> v[k] == old(v[k])
        invariant forall k :: j < k <= i ==> v[k] == old(v[k - 1])
      {
        assert t[j - 1] == v[j - 1];
        v[j] := v[j - 1];
        j := j - 1;
      }
      assert j > 0 ==> t[j - 1] == v[j - 1];
    }
  }

  lemma Joined(t: seq<FsEntry>, x: FsEntry, j: nat, u: seq<FsEntry>)
    requires |u| == |t| + 1 && j <= |t| && u[j] == x
    requires forall k :: 0 <= k < j ==> u[k] == t[k]
    requires forall k :: j < k < |u| ==> u[k] == t[k - 1]
    ensures u == t[..j] + [x] + t[j..]
  {
  }

  lemma SlotIs(t: seq<FsEntry>, x: FsEntry, j: nat)
    requires j <= |t| && (j > 0 ==> t[j - 1].index <= x.index) && forall k :: j <= k < |t| ==> t[k].index > x.index
    ensures Slot(t, x) == j
  {
    var s := Slot(t, x);
    assert (j > 0 ==> t[j - 1].index <= x.index) && (s > 0 ==> t[s - 1].index <= x.index);
  }

  /** Behind the last entry not above x. */
  function Slot(t: seq<FsEntry>, x: FsEntry): (j: nat)
    ensures j <= |t| && (j > 0 ==> t[j - 1].index <= x.index) && forall k :: j <= k < |t| ==> t[k].index > x.index
  {
    if t == [] || t[|t| - 1].index <= x.index then |t| else Slot(t[..|t| - 1], x)
  }

  function Inserted(t: seq<FsEntry>, x: FsEntry): seq<FsEntry> {
    t[..Slot(t, x)] + [x] + t[Slot(t, x)..]
  }

  function Sorted(t: seq<FsEntry>): (s: seq<FsEntry>)
    ensures |s| == |t|
  {
    if t == [] then [] else Inserted(Sorted(t[..|t| - 1]), t[|t| - 1])
  }

  lemma SortedIsOrderedNil()
    ensures Ordered([])
  {
  }

  /** Sorting puts the same entries in index order. */
  lemma {:induction false} SortedIsOrdered(t: seq<FsEntry>)
    ensures Ordered(Sorted(t)) && multiset(Sorted(t)) == multiset(t)
  {
    hide Ordered, Slot, Inserted;
    if t != [] {
      var n := |t| - 1;
      SortedIsOrdered(t[..n]);
      InsertedOrdered(Sorted(t[..n]), t[n]);
      assert t == t[..n] + [t[n]];
    } else {
      SortedIsOrderedNil();
    }
  }

  lemma InsertedOrdered(s: seq<FsEntry>, x: FsEntry)
    requires Ordered(s)
    ensures Ordered(Inserted(s, x)) && multiset(Inserted(s, x)) == multiset(s) + multiset{x}
  {
    hide Ordered;
    SortedInsert(s, Slot(s, x), x);
    OneMore(s, Slot(s, x), x);
  }

  lemma OneMore(s: seq<FsEntry>, j: nat, x: FsEntry)
    requires j <= |s|
    ensures multiset(s[..j] + [x] + s[j..]) == multiset(s) + multiset{x}
  {
    assert s == s[..j] + s[j..];
  }

  lemma SortedInsert(t: seq<FsEntry>, j: nat, x: FsEntry)
    requires Ordered(t) && j <= |t|
    requires j > 0 ==> t[j - 1].index <= x.index
    requires forall k :: j <= k < |t| ==> t[k].index > x.index
    ensures Ordered(t[..j] + [x] + t[j..])
  {
    var s := t[..j] + [x] + t[j..];
    forall a, b | 0 <= a < b < |s| ensures s[a].index <= s[b].index {
      assert s[a] == if a < j then t[a] else if a == j then x else t[a - 1];
      assert s[b] == if b < j then t[b] else if b == j then x else t[b - 1];
    }
  }

  lemma StrictInsert(t: seq<FsEntry>, j: nat, x: FsEntry)
    requires Strict(t) && j <= |t|
    requires j > 0 ==> t[j - 1].index < x.index
    requires forall k :: j <= k < |t| ==> t[k].index > x.index
    ensures Strict(t[..j] + [x] + t[j..])
  {
    var s := t[..j] + [x] + t[j..];
    forall a, b | 0 <= a < b < |s| ensures s[a].index < s[b].index {
      assert s[a] == if a < j then t[a] else if a == j then x else t[a - 1];
      assert s[b] == if b < j then t[b] else if b == j then x else t[b - 1];
    }
  }

  lemma InsertedMembers(s: seq<FsEntry>, j: nat, x: FsEntry)
    requires j <= |s|
    ensures forall e :: e in s[..j] + [x] + s[j..] <==> e in s || e == x
  {
    assert s == s[..j] + s[j..];
  }

  lemma InsertedStrict(s: seq<FsEntry>, x: FsEntry)
    requires Strict(s) && forall i :: 0 <= i < |s| ==> s[i].index != x.index
    ensures Strict(Inserted(s, x)) && forall e :: e in Inserted(s, x) <==> e in s || e == x
  {
    hide Strict;
    StrictInsert(s, Slot(s, x), x);
    InsertedMembers(s, Slot(s, x), x);
  }

  /** Distinct indices sort to a strict order, of the same entries. */
  lemma {:induction false} SortedIsStrict(t: seq<FsEntry>)
    requires Distinct(t)
    ensures Strict(Sorted(t)) && forall e :: e in Sorted(t) <==> e in t
  {
    hide Inserted, Strict;
    if t == [] {
      SortedNil();
    } else {
      var n := |t| - 1;
      SortedIsStrict(t[..n]);
      var s := Sorted(t[..n]);
      forall i | 0 <= i < |s| ensures s[i].index != t[n].index {
        assert s[i] in t[..n];
      }
      InsertedStrict(s, t[n]);
      assert t == t[..n] + [t[n]];
    }
  }

  lemma SortedNil()
    ensures Strict(Sorted([]))
  {
  }

  /** A strict order has one sequence. */
  lemma {:induction false} StrictUnique(s: seq<FsEntry>, r: seq<FsEntry>)
    requires Strict(s) && Strict(r) && forall e :: e in s <==> e in r
    ensures s == r
    decreases |s|
  {
    EmptyTogether(s, r);
    if s != [] {
      var m, n := |s| - 1, |r| - 1;
      assert s[m] in r && r[n] in s;
      assert s[m] == r[n];
      forall e ensures e in s[..m] <==> e in r[..n] {
        if e in s[..m] { LaterOut(s, e); EarlierIn(r, e); }
        if e in r[..n] { LaterOut(r, e); EarlierIn(s, e); }
      }
      StrictUnique(s[..m], r[..n]);
      assert s == s[..m] + [s[m]] && r == r[..n] + [r[n]];
    }
  }

  lemma EmptyTogether(s: seq<FsEntry>, r: seq<FsEntry>)
    requires forall e :: e in s <==> e in r
    ensures s == [] <==> r == []
  {
    if s != [] { assert s[0] in r; }
    if r != [] { assert r[0] in s; }
  }

  lemma LaterOut(s: seq<FsEntry>, e: FsEntry)
    requires Strict(s) && s != [] && e in s[..|s| - 1]
    ensures e in s && e != s[|s| - 1]
  {
  }

  lemma EarlierIn(s: seq<FsEntry>, e: FsEntry)
    requires s != [] && e in s && e != s[|s| - 1]
    ensures e in s[..|s| - 1]
  {
    assert s == s[..|s| - 1] + [s[|s| - 1]];
  }
}
