/** The boot scan, whatever order readdir returns names in: the table ends with
    the newest indices that fit, and every other file was reported evicted. */
module ScanOrder {
  import opened Words
  import opened Options
  import opened FsIndex

  type Names = seq<Option<FsName>>

  /** A name of a data file, not of a sidecar and not foreign. */
  predicate IsFile(n: Option<FsName>) { n.Some? && n.value.ext != ExtMeta }

  function Indices(names: Names): set<u32> {
    set i | 0 <= i < |names| && IsFile(names[i]) :: names[i].value.index
  }

  predicate HasLog(names: Names, x: u32) {
    exists i :: 0 <= i < |names| && IsFile(names[i]) && names[i].value.index == x && names[i].value.ext == ExtLog
  }

  function TableIndices(t: seq<FsEntry>): set<u32> {
    set i | 0 <= i < |t| :: t[i].index
  }

  datatype Result = Result(table: seq<FsEntry>, evicted: seq<FsEntry>, stats: ScanStats)

  /** Feed every name to a table of capacity c. */
  function Scan(names: Names, c: nat): Result {
    if names == [] then Result([], [], NO_SCAN)
    else
      var name := names[|names| - 1];
      var r := Scan(names[..|names| - 1], c);
      var (t, ev) := Feed(r.table, name, c);
      Result(t, if ev.Some? then r.evicted + [ev.value] else r.evicted, Tally(r.stats, r.table, name, c))
  }

  /** Names of one index are of one kind and boot: a .log and its .part. */
  predicate Paired(names: Names) {
    forall i, j :: 0 <= i < j < |names| && IsFile(names[i]) && IsFile(names[j])
                   && names[i].value.index == names[j].value.index
      ==> names[i].value.kind == names[j].value.kind && names[i].value.bootId == names[j].value.bootId
  }

  /** What an entry says about its file is what the names say. */
  predicate Faithful(e: FsEntry, names: Names) {
    && !e.active && !e.hydrated && !e.hasSha && e.bytes == 0 && e.mode == MODE_UNKNOWN
    && (e.closed <==> HasLog(names, e.index))
    && exists i :: 0 <= i < |names| && IsFile(names[i]) && names[i].value.index == e.index
                   && names[i].value.kind == e.kind && names[i].value.bootId == e.bootId
  }

  /** The state of the scan: the table holds the newest indices, at most c of
      them; the evicted are the others. */
  ghost predicate Newest(t: seq<FsEntry>, evicted: seq<FsEntry>, names: Names, c: nat) {
    && Distinct(t) && |t| <= c
    && TableIndices(t) + TableIndices(evicted) == Indices(names)
    && TableIndices(t) !! TableIndices(evicted)
    && (forall e :: e in t ==> Faithful(e, names))
    && (forall e, k :: e in t && k in evicted ==> k.index < e.index)
    && (evicted != [] ==> |t| == c)
  }

  lemma IndicesGrow(names: Names, n: Option<FsName>)
    ensures Indices(names + [n]) == Indices(names) + if IsFile(n) then {n.value.index} else {}
    ensures forall x :: HasLog(names + [n], x) <==>
            HasLog(names, x) || (IsFile(n) && n.value.index == x && n.value.ext == ExtLog)
  {
    var all := names + [n];
    assert all[|names|] == n;
    forall x | x in Indices(names) ensures x in Indices(all) {
      var i :| 0 <= i < |names| && IsFile(names[i]) && names[i].value.index == x;
      assert all[i] == names[i];
    }
    forall x | HasLog(names, x) ensures HasLog(all, x) {
      var i :| 0 <= i < |names| && IsFile(names[i]) && names[i].value.index == x && names[i].value.ext == ExtLog;
      assert all[i] == names[i];
    }
  }

  lemma FaithfulGrows(e: FsEntry, names: Names, n: Option<FsName>)
    requires Faithful(e, names) && (IsFile(n) && n.value.index == e.index ==> n.value.ext != ExtLog || e.closed)
    ensures Faithful(e, names + [n])
  {
    IndicesGrow(names, n);
    var i :| 0 <= i < |names| && IsFile(names[i]) && names[i].value.index == e.index
             && names[i].value.kind == e.kind && names[i].value.bootId == e.bootId;
    assert (names + [n])[i] == names[i];
  }

  lemma NewFaithful(names: Names, n: Option<FsName>)
    requires IsFile(n) && n.value.index !in Indices(names)
    ensures Faithful(Scanned(n.value), names + [n])
  {
    IndicesGrow(names, n);
    assert (names + [n])[|names|] == n;
  }

  lemma FoundIsIn(t: seq<FsEntry>, x: u32)
    ensures x in TableIndices(t) <==> Find(t, x) < |t|
  {
    if x in TableIndices(t) { var i :| 0 <= i < |t| && t[i].index == x; }
  }

  lemma TableGrows(t: seq<FsEntry>, e: FsEntry)
    ensures TableIndices(t + [e]) == TableIndices(t) + {e.index}
  {
    assert (t + [e])[|t|] == e;
    forall x | x in TableIndices(t) ensures x in TableIndices(t + [e]) {
      var i :| 0 <= i < |t| && t[i].index == x;
      assert (t + [e])[i] == t[i];
    }
  }

  lemma OnlyEntry(t: seq<FsEntry>, i: nat, x: u32)
    requires Distinct(t) && i < |t| && t[i].index == x
    ensures Find(t, x) == i
  {
  }

  /** A name that changes nothing. */
  lemma SkipKeeps(t: seq<FsEntry>, ev: seq<FsEntry>, names: Names, c: nat, n: Option<FsName>)
    requires Newest(t, ev, names, c)
    requires IsFile(n) ==> Find(t, n.value.index) < |t| && (n.value.ext != ExtLog || t[Find(t, n.value.index)].closed)
    ensures Newest(t, ev, names + [n], c)
  {
    hide Faithful, Indices, TableIndices, Find;
    IndicesGrow(names, n);
    if IsFile(n) { FoundIsIn(t, n.value.index); }
    forall e | e in t ensures Faithful(e, names + [n]) {
      var i :| 0 <= i < |t| && t[i] == e;
      if IsFile(n) && n.value.index == e.index { OnlyEntry(t, i, e.index); }
      FaithfulGrows(e, names, n);
    }
  }

  lemma SameIndices(t: seq<FsEntry>, at: nat, e: FsEntry)
    requires at < |t| && e.index == t[at].index
    ensures TableIndices(t[at := e]) == TableIndices(t)
    ensures Distinct(t) ==> Distinct(t[at := e])
  {
    var r := t[at := e];
    forall x ensures x in TableIndices(r) <==> x in TableIndices(t) {
      if x in TableIndices(t) { var i :| 0 <= i < |t| && t[i].index == x; assert r[i].index == x; }
      if x in TableIndices(r) { var i :| 0 <= i < |r| && r[i].index == x; assert t[i].index == x; }
    }
  }

  /** The .log of an entry made from its .part. */
  lemma MarkKeeps(t: seq<FsEntry>, ev: seq<FsEntry>, names: Names, c: nat, n: Option<FsName>, at: nat)
    requires Newest(t, ev, names, c) && IsFile(n) && n.value.ext == ExtLog
    requires at == Find(t, n.value.index) < |t|
    ensures Newest(t[at := t[at].(closed := true, hydrated := false)], ev, names + [n], c)
  {
    hide Faithful, Indices, TableIndices, Find;
    var m := t[at].(closed := true, hydrated := false);
    var r := t[at := m];
    IndicesGrow(names, n);
    FoundIsIn(t, n.value.index);
    SameIndices(t, at, m);
    assert t[at] in t;
    FaithfulMarked(t[at], names, n);
    forall e | e in r ensures Faithful(e, names + [n]) && forall k :: k in ev ==> k.index < e.index {
      var i :| 0 <= i < |r| && r[i] == e;
      assert t[i] in t;
      if i != at { FaithfulGrows(e, names, n); }
    }
  }

  /** A .part entry whose .log turns up is marked closed. */
  lemma FaithfulMarked(e: FsEntry, names: Names, n: Option<FsName>)
    requires Faithful(e, names) && IsFile(n) && n.value.index == e.index && n.value.ext == ExtLog
    ensures Faithful(e.(closed := true, hydrated := false), names + [n])
  {
    IndicesGrow(names, n);
    var i :| 0 <= i < |names| && IsFile(names[i]) && names[i].value.index == e.index
             && names[i].value.kind == e.kind && names[i].value.bootId == e.bootId;
    assert (names + [n])[i] == names[i];
  }

  /** A new file while there is room. */
  lemma AddKeeps(t: seq<FsEntry>, ev: seq<FsEntry>, names: Names, c: nat, n: Option<FsName>)
    requires Newest(t, ev, names, c) && IsFile(n) && Find(t, n.value.index) == |t| < c
    ensures Newest(t + [Scanned(n.value)], ev, names + [n], c)
  {
    hide Faithful, Indices, TableIndices, Find;
    assert ev == [];
    IndicesGrow(names, n);
    FoundIsIn(t, n.value.index);
    NothingIn();
    TableGrows(t, Scanned(n.value));
    NewFaithful(names, n);
    OthersFaithful(t, names, n);
  }

  lemma NothingIn()
    ensures TableIndices([]) == {}
  {
  }

  lemma OthersFaithful(t: seq<FsEntry>, names: Names, n: Option<FsName>)
    requires IsFile(n) && Find(t, n.value.index) == |t| && forall e :: e in t ==> Faithful(e, names)
    ensures forall e :: e in t ==> Faithful(e, names + [n])
  {
    forall e | e in t ensures Faithful(e, names + [n]) {
      var i :| 0 <= i < |t| && t[i] == e;
      FaithfulGrows(e, names, n);
    }
  }

  /** A new file in a full table: it or the oldest entry is evicted. */
  lemma EvictKeeps(t: seq<FsEntry>, ev: seq<FsEntry>, names: Names, c: nat, n: Option<FsName>)
    requires Newest(t, ev, names, c) && IsFile(n) && Find(t, n.value.index) == |t| == c
    ensures var (r, k) := AddOrEvict(t, Scanned(n.value), false);
            k.Some? && Newest(r, ev + [k.value], names + [n], c)
  {
    hide Faithful, Indices, TableIndices, Find, Oldest;
    var e, o := Scanned(n.value), Oldest(t, |t|);
    IndicesGrow(names, n);
    FoundIsIn(t, e.index);
    OthersFaithful(t, names, n);
    TableGrows(ev, e);
    AllInactive(t, names);
    if o == |t| || e.index < t[o].index {
      EvictNewcomer(t, ev, names, c, n, o);
    } else {
      EvictOldest(t, ev, names, c, n, o);
    }
  }

  lemma AllInactive(t: seq<FsEntry>, names: Names)
    requires forall e :: e in t ==> Faithful(e, names)
    ensures forall i :: 0 <= i < |t| ==> !t[i].active
  {
    forall i | 0 <= i < |t| ensures !t[i].active { assert t[i] in t; }
  }

  /** The newcomer is older than everything in the table. It may have been
      evicted before: a .log and .part of one old index. */
  lemma EvictNewcomer(t: seq<FsEntry>, ev: seq<FsEntry>, names: Names, c: nat, n: Option<FsName>, o: nat)
    requires Newest(t, ev, names, c) && IsFile(n) && n.value.index !in TableIndices(t) && |t| == c
    requires (forall i :: 0 <= i < |t| ==> !t[i].active) && IsOldest(t, |t|, o)
    requires o == |t| || n.value.index < t[o].index
    requires forall e :: e in t ==> Faithful(e, names + [n])
    ensures Newest(t, ev + [Scanned(n.value)], names + [n], c)
  {
    hide Faithful, Indices, TableIndices;
    var x := Scanned(n.value);
    IndicesGrow(names, n);
    TableGrows(ev, x);
    forall e, k | e in t && k in ev + [x] ensures k.index < e.index {
      var i :| 0 <= i < |t| && t[i] == e;
    }
  }

  /** The oldest entry makes room; it is newer than all evicted before. */
  lemma EvictOldest(t: seq<FsEntry>, ev: seq<FsEntry>, names: Names, c: nat, n: Option<FsName>, o: nat)
    requires Newest(t, ev, names, c) && IsFile(n) && n.value.index !in TableIndices(t) && |t| == c
    requires (forall i :: 0 <= i < |t| ==> !t[i].active) && IsOldest(t, |t|, o)
    requires o < |t| && n.value.index >= t[o].index
    requires forall e :: e in t ==> Faithful(e, names + [n])
    ensures Newest(t[o := Scanned(n.value)], ev + [t[o]], names + [n], c)
  {
    hide Faithful;
    var x, r := Scanned(n.value), t[o := Scanned(n.value)];
    IndicesGrow(names, n);
    TableGrows(ev, t[o]);
    Replaced(t, o, x);
    assert t[o] in t && t[o].index in TableIndices(t);
    forall i | 0 <= i < |ev| ensures ev[i].index != x.index { assert ev[i] in ev; }
    NewFaithful(names, n);
    forall e | e in r ensures Faithful(e, names + [n]) && forall k :: k in ev + [t[o]] ==> k.index < e.index {
      var i :| 0 <= i < |r| && r[i] == e;
      if i != o {
        assert t[i] in t && t[i].index != t[o].index;
      } else {
        assert x.index != t[o].index;
      }
    }
  }

  lemma Replaced(t: seq<FsEntry>, o: nat, x: FsEntry)
    requires Distinct(t) && o < |t| && x.index !in TableIndices(t)
    ensures Distinct(t[o := x]) && TableIndices(t[o := x]) == TableIndices(t) - {t[o].index} + {x.index}
  {
    var r := t[o := x];
    assert forall i :: 0 <= i < |t| ==> t[i].index in TableIndices(t);
    forall y ensures y in TableIndices(r) <==> y in TableIndices(t) - {t[o].index} + {x.index} {
      if y in TableIndices(r) { var i :| 0 <= i < |r| && r[i].index == y; }
      if y == x.index { assert r[o].index == y; }
      if y in TableIndices(t) && y != t[o].index { var i :| 0 <= i < |t| && t[i].index == y; assert r[i].index == y; }
    }
  }

  lemma FeedKeeps(t: seq<FsEntry>, ev: seq<FsEntry>, names: Names, c: nat, n: Option<FsName>)
    requires Newest(t, ev, names, c)
    ensures var (r, k) := Feed(t, n, c);
            Newest(r, if k.Some? then ev + [k.value] else ev, names + [n], c)
  {
    hide Newest, Find;
    if !IsFile(n) {
      SkipKeeps(t, ev, names, c, n);
    } else {
      var at := Find(t, n.value.index);
      SizeBound(t, ev, names, c);
      if at < |t| {
        if t[at].closed || n.value.ext != ExtLog {
          SkipKeeps(t, ev, names, c, n);
        } else {
          MarkKeeps(t, ev, names, c, n, at);
        }
      } else if |t| < c {
        AddKeeps(t, ev, names, c, n);
      } else {
        EvictKeeps(t, ev, names, c, n);
      }
    }
  }

  lemma SizeBound(t: seq<FsEntry>, ev: seq<FsEntry>, names: Names, c: nat)
    requires Newest(t, ev, names, c)
    ensures |t| <= c
  {
  }

  /** Whatever the order of the names: the table holds the newest indices, and
      every file without a slot was reported evicted. */
  lemma {:induction false} ScanKeepsNewest(names: Names, c: nat)
    ensures var r := Scan(names, c); Newest(r.table, r.evicted, names, c)
    decreases |names|
  {
    hide Feed;
    if names == [] {
      assert Indices(names) == {} && TableIndices([]) == {};
    } else {
      var n := |names| - 1;
      ScanKeepsNewest(names[..n], c);
      var r := Scan(names[..n], c);
      FeedKeeps(r.table, r.evicted, names[..n], c, names[n]);
      assert names == names[..n] + [names[n]];
    }
  }

  // ---- what that amounts to ----------------------------------------------

  /** keep is the c largest of all, or all of them if they are no more. */
  ghost predicate LargestOf(keep: set<u32>, all: set<u32>, c: nat) {
    && keep <= all && |keep| <= c
    && (keep != all ==> |keep| == c)
    && forall x, y :: x in all - keep && y in keep ==> x < y
  }

  lemma {:induction false} Cardinality(t: seq<FsEntry>)
    requires Distinct(t)
    ensures |TableIndices(t)| == |t|
    decreases |t|
  {
    if t == [] {
      NothingIn();
    } else {
      var n := |t| - 1;
      Cardinality(t[..n]);
      TableGrows(t[..n], t[n]);
      assert t == t[..n] + [t[n]];
      assert t[n].index !in TableIndices(t[..n]);
    }
  }

  /** The largest are one set only. */
  lemma LargestUnique(a: set<u32>, b: set<u32>, all: set<u32>, c: nat)
    requires LargestOf(a, all, c) && LargestOf(b, all, c)
    ensures a == b
  {
    LargestWithin(a, b, all, c);
    LargestWithin(b, a, all, c);
  }

  lemma LargestWithin(a: set<u32>, b: set<u32>, all: set<u32>, c: nat)
    requires LargestOf(a, all, c) && LargestOf(b, all, c)
    ensures a <= b
  {
    forall x | x in a ensures x in b {
      if x !in b {
        Smaller(a, b, x);
        var y :| y in b - a;
        Below(b, all, c, x, y);
        Below(a, all, c, y, x);
      }
    }
  }

  lemma Below(keep: set<u32>, all: set<u32>, c: nat, x: u32, y: u32)
    requires LargestOf(keep, all, c) && x in all - keep && y in keep
    ensures x < y
  {
  }

  lemma Smaller(a: set<u32>, b: set<u32>, x: u32)
    requires x in a - b && |a| <= |b|
    ensures exists y :: y in b - a
  {
    assert |a - {x}| == |a| - 1;
    if forall y :: y in b ==> y in a {
      SubsetSize(b, a - {x});
    } else {
      var y :| y in b && y !in a;
      assert y in b - a;
    }
  }

  lemma {:induction false} SubsetSize(a: set<u32>, b: set<u32>)
    requires a <= b
    ensures |a| <= |b|
    decreases |a|
  {
    if x :| x in a { SubsetSize(a - {x}, b - {x}); }
  }

  /** After the scan the table holds exactly the c largest distinct indices,
      and the evicted reports are exactly the rest. */
  lemma ScanKeepsLargest(names: Names, c: nat)
    ensures var r := Scan(names, c);
            && LargestOf(TableIndices(r.table), Indices(names), c)
            && TableIndices(r.evicted) == Indices(names) - TableIndices(r.table)
            && Distinct(r.table) && forall e :: e in r.table ==> Faithful(e, names)
  {
    ScanKeepsNewest(names, c);
    var r := Scan(names, c);
    Cardinality(r.table);
    var keep, all := TableIndices(r.table), Indices(names);
    if r.evicted == [] { NothingIn(); }
    forall x, y | x in all - keep && y in keep ensures x < y {
      var i :| 0 <= i < |r.evicted| && r.evicted[i].index == x;
      var j :| 0 <= j < |r.table| && r.table[j].index == y;
      assert r.evicted[i] in r.evicted && r.table[j] in r.table;
    }
  }

  /** The order of the names does not matter to which files are kept and which
      are reported lost. */
  lemma OrderDoesNotMatter(a: Names, b: Names, c: nat)
    requires multiset(a) == multiset(b)
    ensures TableIndices(Scan(a, c).table) == TableIndices(Scan(b, c).table)
    ensures TableIndices(Scan(a, c).evicted) == TableIndices(Scan(b, c).evicted)
  {
    hide Scan, LargestOf;
    ScanKeepsLargest(a, c);
    ScanKeepsLargest(b, c);
    SameFiles(a, b);
    LargestUnique(TableIndices(Scan(a, c).table), TableIndices(Scan(b, c).table), Indices(a), c);
  }

  lemma SameFiles(a: Names, b: Names)
    requires multiset(a) == multiset(b)
    ensures Indices(a) == Indices(b)
  {
    forall x ensures x in Indices(a) <==> x in Indices(b) {
      if x in Indices(a) {
        var i :| 0 <= i < |a| && IsFile(a[i]) && a[i].value.index == x;
        assert a[i] in multiset(b);
        var j :| 0 <= j < |b| && b[j] == a[i];
      }
      if x in Indices(b) {
        var i :| 0 <= i < |b| && IsFile(b[i]) && b[i].value.index == x;
        assert b[i] in multiset(a);
        var j :| 0 <= j < |a| && a[j] == b[i];
      }
    }
  }

  lemma SameLogs(a: Names, b: Names, x: u32)
    requires multiset(a) == multiset(b)
    ensures HasLog(a, x) ==> HasLog(b, x)
  {
    if HasLog(a, x) {
      var i :| 0 <= i < |a| && IsFile(a[i]) && a[i].value.index == x && a[i].value.ext == ExtLog;
      assert a[i] in multiset(b);
      var j :| 0 <= j < |b| && b[j] == a[i];
    }
  }

  /** Where the names of an index agree, they make one entry. */
  lemma OneEntry(a: Names, b: Names, e: FsEntry, k: FsEntry)
    requires multiset(a) == multiset(b) && Paired(a) && Faithful(e, a) && Faithful(k, b) && e.index == k.index
    ensures e == k
  {
    SameLogs(a, b, e.index);
    SameLogs(b, a, e.index);
    var i :| 0 <= i < |a| && IsFile(a[i]) && a[i].value.index == e.index
             && a[i].value.kind == e.kind && a[i].value.bootId == e.bootId;
    var j :| 0 <= j < |b| && IsFile(b[j]) && b[j].value.index == k.index
             && b[j].value.kind == k.kind && b[j].value.bootId == k.bootId;
    assert b[j] in multiset(a);
    var m :| 0 <= m < |a| && a[m] == b[j];
    assert m < i || m == i || i < m;
  }

  lemma EntriesWithin(a: Names, b: Names, s: seq<FsEntry>, r: seq<FsEntry>)
    requires multiset(a) == multiset(b) && Paired(a) && TableIndices(s) == TableIndices(r)
    requires (forall e :: e in s ==> Faithful(e, a)) && (forall e :: e in r ==> Faithful(e, b))
    ensures forall e :: e in s <==> e in r
  {
    hide Faithful, Paired;
    forall e ensures e in s <==> e in r {
      if e in s {
        var i :| 0 <= i < |s| && s[i] == e;
        assert e.index in TableIndices(r);
        var j :| 0 <= j < |r| && r[j].index == e.index;
        OneEntry(a, b, e, r[j]);
      }
      if e in r {
        var j :| 0 <= j < |r| && r[j] == e;
        assert e.index in TableIndices(s);
        var i :| 0 <= i < |s| && s[i].index == e.index;
        OneEntry(a, b, s[i], e);
      }
    }
  }

  /** Where the names of an index agree on kind and boot, the whole index after
      the scan is the same for every order of the names. */
  lemma OneIndex(a: Names, b: Names, c: nat)
    requires multiset(a) == multiset(b) && Paired(a)
    ensures Sorted(Scan(a, c).table) == Sorted(Scan(b, c).table)
  {
    hide Scan, Faithful, LargestOf, Paired, Sorted, Strict, Distinct;
    ScanKeepsLargest(a, c);
    ScanKeepsLargest(b, c);
    OrderDoesNotMatter(a, b, c);
    var s, r := Scan(a, c).table, Scan(b, c).table;
    EntriesWithin(a, b, s, r);
    SortedIsStrict(s);
    SortedIsStrict(r);
    StrictUnique(Sorted(s), Sorted(r));
  }

  /** Every name is counted once, and every data file is in the index, a second
      name of its index, or reported evicted. */
  lemma {:induction false} StatsBalance(names: Names, c: nat)
    ensures var (r, s) := (Scan(names, c), Scan(names, c).stats);
            && s.entries == |names| == s.unparsed + s.metas + s.files
            && s.evictedForRoom == |r.evicted|
            && s.files == |r.table| + s.duplicates + s.evictedForRoom
  {
    hide Find, Oldest;
    if names != [] { StatsBalance(names[..|names| - 1], c); }
  }

  function Foreign(names: Names): nat {
    if names == [] then 0 else (if names[0] == None then 1 else 0) + Foreign(names[1..])
  }

  function Sidecars(names: Names): nat {
    if names == [] then 0
    else (if names[0].Some? && names[0].value.ext == ExtMeta then 1 else 0) + Sidecars(names[1..])
  }

  lemma {:induction false} CountsGrow(names: Names, n: Option<FsName>)
    ensures Foreign(names + [n]) == Foreign(names) + if n == None then 1 else 0
    ensures Sidecars(names + [n]) == Sidecars(names) + if n.Some? && n.value.ext == ExtMeta then 1 else 0
  {
    if names == [] {
      assert [] + [n] == [n] && [n][1..] == [];
    } else {
      CountsGrow(names[1..], n);
      assert (names + [n])[1..] == names[1..] + [n];
    }
  }

  /** Which counter counts what: foreign names, sidecars, data files; and while
      nothing is evicted, the second names of an index. */
  lemma {:induction false} StatsTell(names: Names, c: nat)
    ensures var (r, s) := (Scan(names, c), Scan(names, c).stats);
            && s.unparsed == Foreign(names) && s.metas == Sidecars(names)
            && (r.evicted == [] ==> s.duplicates == s.files - |Indices(names)|)
  {
    hide Scan, Indices;
    CountsTell(names, c);
    StatsBalance(names, c);
    ScanKeepsLargest(names, c);
    var r := Scan(names, c);
    Cardinality(r.table);
    NothingIn();
    if r.evicted == [] {
      assert TableIndices(r.evicted) == {};
      forall x | x in Indices(names) ensures x in TableIndices(r.table) {
        assert x !in Indices(names) - TableIndices(r.table);
      }
      assert Indices(names) == TableIndices(r.table);
    }
  }

  lemma {:induction false} CountsTell(names: Names, c: nat)
    ensures var s := Scan(names, c).stats; s.unparsed == Foreign(names) && s.metas == Sidecars(names)
  {
    hide Feed, Find, Foreign, Sidecars;
    if names == [] {
      NoneCounted();
    } else {
      var n := |names| - 1;
      CountsTell(names[..n], c);
      CountsGrow(names[..n], names[n]);
      assert names == names[..n] + [names[n]];
    }
  }

  lemma NoneCounted()
    ensures Foreign([]) == Sidecars([]) == 0
  {
  }

  lemma FirstIn(t: seq<FsEntry>)
    ensures t != [] ==> t[0].index in TableIndices(t)
  {
  }

  /** While growth succeeds, every file on disk is in the index and nothing is
      evicted. */
  lemma NothingLost(names: Names, c: nat)
    requires |Indices(names)| <= c
    ensures var r := Scan(names, c); TableIndices(r.table) == Indices(names) && r.evicted == []
  {
    ScanKeepsLargest(names, c);
    var r := Scan(names, c);
    var keep, all := TableIndices(r.table), Indices(names);
    FirstIn(r.evicted);
    forall x | x in all ensures x in keep {
      if x !in keep { SubsetSize(keep, all - {x}); }
    }
    assert keep == all;
  }

  /** scanDir: the loop over the directory. */
  method ScanDir(names: Names, memory: nat) returns (t: FsTable, evicted: seq<FsEntry>, stats: ScanStats)
    ensures fresh(t) && fresh(t.v) && t.Valid() && t.memory == memory
    ensures var r := Scan(names, Limit(0, memory));
            t.Contents() == Sorted(r.table) && evicted == r.evicted && stats == r.stats
  {
    t := new FsTable(memory);
    evicted, stats := [], NO_SCAN;
    for i := 0 to |names|
      invariant fresh(t) && fresh(t.v) && t.Valid() && t.memory == memory
      invariant Result(t.Contents(), evicted, stats) == Scan(names[..i], t.Capacity())
    {
      var ev;
      ev, stats := t.FeedName(names[i], stats);
      if ev.Some? { evicted := evicted + [ev.value]; }
      assert names[..i + 1][..i] == names[..i];
    }
    assert names[..|names|] == names;
    t.Sort();
  }
}
