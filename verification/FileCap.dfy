/** The file count over whole runs of opens, closes, rotations, writes and
    retention passes: at most 96 files once it is at most 96, and a backlog
    drains by eight a pass. */
module FileCap {
  import opened Words
  import opened Options
  import opened FsIndex
  import ScanOrder
  import opened Retention
  import opened RetentionLoop

  const MAX_FILES := 96
  const EVICT_PER_PASS := 8

  /** The two writers of filestoreTick and the bookend's, open only in a call. */
  datatype Writer = SnapshotWriter | ChangesWriter | BookendWriter

  function KindOf(w: Writer): Kind {
    match w
    case SnapshotWriter => SnapshotKind
    case ChangesWriter => ChangesKind
    case BookendWriter => BookendKind
  }

  /** The index, the next file index, and the index each writer has open. */
  datatype Store = Store(t: seq<FsEntry>, next: u32, open: map<Writer, u32>)

  datatype Event =
    | Open(w: Writer, env: Env, ok: bool, room: bool, bootId: u32, mode: u8)
    | Close(w: Writer, bytes: u32, bootId: u32, mode: u8)
    | Retain(env: Env)
    | Fill(at: nat, bytes: u32)  // a write, or sizes read back

  function NewEntry(s: Store, e: Event): FsEntry
    requires e.Open?
  {
    FsEntry(s.next, 0, e.bootId, KindOf(e.w), e.mode, false, false, true, true)
  }

  function ClosedEntry(index: u32, e: Event): FsEntry
    requires e.Close?
  {
    FsEntry(index, e.bytes, e.bootId, KindOf(e.w), e.mode, true, true, false, true)
  }

  predicate EventOk(s: Store, e: Event) {
    match e
    case Open(w, env, _, _, _, _) => w !in s.open && env.maxFiles == MAX_FILES && s.next + 1 < U32
    case Retain(env) => env.maxFiles == MAX_FILES
    case Fill(at, _) => at < |s.t|
    case Close(_, _, _, _) => true
  }

  /** openActive, closeActive, enforceRetention on the index. */
  function Step(s: Store, e: Event): Store
    requires EventOk(s, e)
  {
    match e
    case Open(w, env, ok, room, _, _) =>
      var o := Enforce(s.t, env, 1, EVICT_PER_PASS);
      var s' := s.(t := o.t, next := s.next + 1);
      if !ok then s'
      else
        var (t, evicted) := AddOrEvict(o.t, NewEntry(s, e), room);
        if evicted == Some(NewEntry(s, e)) then s' else Store(Sorted(t), s.next + 1, s.open[w := s.next])
    case Close(w, _, _, _) =>
      if w !in s.open then s
      else
        var (t, _) := AddOrEvict(s.t, ClosedEntry(s.open[w], e), false);
        s.(t := Sorted(t), open := s.open - {w})
    case Retain(env) => s.(t := Enforce(s.t, env, 0, EVICT_PER_PASS).t)
    case Fill(at, bytes) => s.(t := s.t[at := s.t[at].(bytes := bytes, hydrated := true)])
  }

  // ---- invariant ---------------------------------------------------------

  function Actives(t: seq<FsEntry>): nat {
    if t == [] then 0 else Actives(t[..|t| - 1]) + if t[|t| - 1].active then 1 else 0
  }

  function OpenCount(open: map<Writer, u32>): nat {
    (if SnapshotWriter in open then 1 else 0) + (if ChangesWriter in open then 1 else 0)
    + if BookendWriter in open then 1 else 0
  }

  predicate Below(t: seq<FsEntry>, next: int) { forall i :: 0 <= i < |t| ==> t[i].index < next }

  /** The entry of an open file is in the index, and active. */
  predicate Tracked(t: seq<FsEntry>, index: u32) { exists i :: 0 <= i < |t| && t[i].index == index && t[i].active }

  predicate Inv(s: Store) {
    && Strict(s.t) && Below(s.t, s.next)
    && Actives(s.t) == OpenCount(s.open)
    && (forall w :: w in s.open ==> Tracked(s.t, s.open[w]))
    && (forall v, w :: v in s.open && w in s.open && v != w ==> s.open[v] != s.open[w])
  }

  lemma {:induction false} NoneActive(t: seq<FsEntry>)
    requires forall i :: 0 <= i < |t| ==> !t[i].active
    ensures Actives(t) == 0
  {
    if t != [] { NoneActive(t[..|t| - 1]); }
  }

  /** A boot starts in the invariant: the sorted index of the scan, nothing
      open, the next index above all on disk. */
  lemma BootInv(names: ScanOrder.Names, c: nat, next: u32)
    requires forall x :: x in ScanOrder.Indices(names) ==> x < next
    ensures Inv(Store(Sorted(ScanOrder.Scan(names, c).table), next, map[]))
  {
    hide Sorted, Actives, Distinct, ScanOrder.Scan, ScanOrder.LargestOf, ScanOrder.Indices;
    ScanOrder.ScanKeepsLargest(names, c);
    var t := ScanOrder.Scan(names, c).table;
    SortedIsStrict(t);
    var s := Sorted(t);
    forall i | 0 <= i < |s| ensures !s[i].active && s[i].index < next { ScannedEntry(names, t, s[i], c); }
    NoneActive(s);
  }

  lemma ScannedEntry(names: ScanOrder.Names, t: seq<FsEntry>, e: FsEntry, c: nat)
    requires e in t && (forall k :: k in t ==> ScanOrder.Faithful(k, names))
    ensures !e.active && e.index in ScanOrder.Indices(names)
  {
  }

  // ---- counting ----------------------------------------------------------

  lemma {:induction false} ActivesPut(t: seq<FsEntry>, at: nat, e: FsEntry)
    requires at < |t|
    ensures Actives(t[at := e]) + (if t[at].active then 1 else 0) == Actives(t) + if e.active then 1 else 0
    decreases |t|
  {
    var n := |t| - 1;
    if at == n {
      assert t[at := e][..n] == t[..n];
    } else {
      ActivesPut(t[..n], at, e);
      assert t[at := e][..n] == t[..n][at := e];
    }
  }

  lemma {:induction false} ActivesDrop(t: seq<FsEntry>, at: nat)
    requires at < |t| && !t[at].active
    ensures Actives(Drop(t, at)) == Actives(t)
    decreases |t|
  {
    var n := |t| - 1;
    if at == n {
      assert Drop(t, at) == t[..n];
    } else {
      ActivesDrop(t[..n], at);
      assert Drop(t, at)[..n - 1] == Drop(t[..n], at);
    }
  }

  lemma {:induction false} AllActive(t: seq<FsEntry>)
    requires forall i :: 0 <= i < |t| ==> t[i].active
    ensures Actives(t) == |t|
  {
    if t != [] { AllActive(t[..|t| - 1]); }
  }

  lemma DropKeeps(t: seq<FsEntry>, at: nat, next: int)
    requires at < |t| && !t[at].active && Strict(t) && Below(t, next)
    ensures Strict(Drop(t, at)) && Below(Drop(t, at), next)
    ensures forall index :: Tracked(t, index) ==> Tracked(Drop(t, at), index)
  {
    forall index | Tracked(t, index) ensures Tracked(Drop(t, at), index) {
      var i :| 0 <= i < |t| && t[i].index == index && t[i].active;
      var k := if i < at then i else i - 1;
      assert Drop(t, at)[k] == t[i];
    }
  }

  /** What is dropped is inactive, so the active entries stay. */
  lemma {:induction false} ChainKeeps(t: seq<FsEntry>, log: seq<Eviction>, t': seq<FsEntry>, env: Env, next: int)
    requires Chain(t, log, t') && AllLegit(log, env) && Strict(t) && Below(t, next)
    ensures Strict(t') && Below(t', next) && Actives(t') == Actives(t) && |t'| == |t| - |log|
    ensures forall index :: Tracked(t, index) ==> Tracked(t', index)
    decreases |log|
  {
    hide Strict, Below, Tracked, Drop;
    if log != [] {
      var at := log[0].at;
      assert Legit(log[0], env);
      DropKeeps(t, at, next);
      ActivesDrop(t, at);
      DropLength(t, at);
      forall k | 0 <= k < |log[1..]| ensures Legit(log[1..][k], env) { assert Legit(log[k + 1], env); }
      ChainKeeps(Drop(t, at), log[1..], t', env, next);
    }
  }

  lemma DropLength(t: seq<FsEntry>, at: nat)
    requires at < |t|
    ensures |Drop(t, at)| == |t| - 1
  {
  }

  /** A retention pass: nothing active goes, and the count is then within the
      limit, or eight files fewer, or all of it active. */
  lemma PassKeeps(t: seq<FsEntry>, env: Env, reserve: nat, next: int)
    requires Strict(t) && Below(t, next)
    ensures var o := Enforce(t, env, reserve, EVICT_PER_PASS);
            && Strict(o.t) && Below(o.t, next) && Actives(o.t) == Actives(t)
            && (forall index :: Tracked(t, index) ==> Tracked(o.t, index))
            && |o.t| <= |t|
            && |o.t| <= Max(Max(CountLimit(env, reserve), Actives(t)), |t| - EVICT_PER_PASS)
  {
    hide Enforce, AllLegit, Needed, Strict, Below, Tracked, Chain, InBounds, RemovedAll, Share, TierAAllActive,
        NoLeftovers;
    StrictOrdered(t);
    EnforceKeepsContract(t, env, reserve, EVICT_PER_PASS);
    var o := Enforce(t, env, reserve, EVICT_PER_PASS);
    ChainKeeps(t, o.log, o.t, env, next);
    if o.stuck && !o.more { AllActive(o.t); }
  }

  lemma StrictOrdered(t: seq<FsEntry>)
    requires Strict(t)
    ensures Ordered(t)
  {
  }

  // ---- steps -------------------------------------------------------------

  /** An ordered table is left alone by the sort. */
  lemma {:induction false} SortedOfOrdered(t: seq<FsEntry>)
    requires Ordered(t)
    ensures Sorted(t) == t
  {
    if t != [] {
      var n := |t| - 1;
      SortedOfOrdered(t[..n]);
      assert Slot(t[..n], t[n]) == n;
      assert t == t[..n] + [t[n]] + t[..n][n..];
    }
  }

  lemma FindTracked(t: seq<FsEntry>, index: u32)
    requires Strict(t) && Tracked(t, index)
    ensures Find(t, index) < |t| && t[Find(t, index)].index == index && t[Find(t, index)].active
  {
  }

  lemma NotFound(t: seq<FsEntry>, next: u32)
    requires Below(t, next)
    ensures Find(t, next) == |t|
  {
  }

  lemma AppendKeeps(t: seq<FsEntry>, e: FsEntry)
    requires Strict(t) && Below(t, e.index) && e.active
    ensures Strict(t + [e]) && Below(t + [e], e.index + 1) && Actives(t + [e]) == Actives(t) + 1
    ensures Tracked(t + [e], e.index)
    ensures forall index :: Tracked(t, index) ==> Tracked(t + [e], index)
  {
    assert (t + [e])[..|t|] == t && (t + [e])[|t|] == e;
    forall index | Tracked(t, index) ensures Tracked(t + [e], index) {
      var i :| 0 <= i < |t| && t[i].index == index && t[i].active;
      assert (t + [e])[i] == t[i];
    }
  }

  /** The table without entry at, up to n. */
  function Without(t: seq<FsEntry>, at: nat, n: nat): seq<FsEntry>
    requires at < n <= |t|
  {
    t[..at] + t[at + 1..n]
  }

  lemma WithoutBelow(t: seq<FsEntry>, at: nat, n: nat)
    requires at < n < |t| && Strict(t)
    ensures Below(Without(t, at, n), t[n].index) && Without(t, at, n + 1) == Without(t, at, n) + [t[n]]
  {
  }

  /** The new entry stays last while the others are put in before it. */
  lemma InsertBefore(s: seq<FsEntry>, x: FsEntry, e: FsEntry)
    requires Below(s, x.index) && x.index < e.index
    ensures Inserted(s + [e], x) == s + [x] + [e]
  {
    hide Slot;
    SlotIs(s + [e], x, |s|);
    assert (s + [e])[..|s|] == s && (s + [e])[|s|..] == [e];
  }

  lemma SortFirst(t: seq<FsEntry>, at: nat, e: FsEntry)
    requires Strict(t) && Below(t, e.index) && at < |t|
    ensures Sorted(t[..at] + [e]) == t[..at] + [e]
  {
    assert Ordered(t[..at] + [e]);
    SortedOfOrdered(t[..at] + [e]);
  }

  lemma {:induction false} SortMoves(t: seq<FsEntry>, at: nat, e: FsEntry, n: nat)
    requires Strict(t) && Below(t, e.index) && at < n <= |t|
    ensures Sorted(t[at := e][..n]) == Without(t, at, n) + [e]
    decreases n
  {
    hide Strict, Inserted, Ordered;
    var u := t[at := e];
    if n == at + 1 {
      SortFirst(t, at, e);
      assert u[..n] == t[..at] + [e] && Without(t, at, n) == t[..at];
    } else {
      SortMoves(t, at, e, n - 1);
      WithoutBelow(t, at, n - 1);
      assert u[..n][..n - 1] == u[..n - 1] && u[..n][n - 1] == t[n - 1];
      InsertBefore(Without(t, at, n - 1), t[n - 1], e);
    }
  }

  /** Overwriting an inactive entry and sorting. */
  lemma ReplaceKeeps(t: seq<FsEntry>, at: nat, e: FsEntry)
    requires Strict(t) && Below(t, e.index) && e.active && at < |t| && !t[at].active
    ensures var r := Sorted(t[at := e]);
            && |r| == |t| && Strict(r) && Below(r, e.index + 1) && Actives(r) == Actives(t) + 1 && Tracked(r, e.index)
            && forall index :: Tracked(t, index) ==> Tracked(r, index)
  {
    hide Sorted, Tracked, Strict, Below, Actives;
    DropKeeps(t, at, e.index);
    ActivesDrop(t, at);
    AppendKeeps(Drop(t, at), e);
    SortMoves(t, at, e, |t|);
    assert t[at := e][..|t|] == t[at := e];
    assert Without(t, at, |t|) == Drop(t, at);
  }

  // ---- what every step keeps ---------------------------------------------

  /** A table that tracks one more file, the one just opened. */
  lemma OpenInv(s: Store, t: seq<FsEntry>, w: Writer)
    requires Inv(s) && w !in s.open && s.next + 1 < U32
    requires Strict(t) && Below(t, s.next + 1) && Actives(t) == Actives(s.t) + 1 && Tracked(t, s.next)
    requires forall index :: Tracked(s.t, index) ==> Tracked(t, index)
    ensures Inv(Store(t, s.next + 1, s.open[w := s.next]))
  {
    hide Strict, Below, Tracked, Actives;
    TrackedBelow(s.t, s.next);
  }

  /** The index once the file exists. */
  lemma TrackKeeps(t: seq<FsEntry>, x: FsEntry, room: bool)
    requires Strict(t) && Below(t, x.index) && x.active
    ensures var (r, evicted) := AddOrEvict(t, x, room);
            evicted != Some(x) ==>
              && Strict(Sorted(r)) && Below(Sorted(r), x.index + 1) && Actives(Sorted(r)) == Actives(t) + 1
              && Tracked(Sorted(r), x.index) && (forall index :: Tracked(t, index) ==> Tracked(Sorted(r), index))
              && |Sorted(r)| <= |t| + 1
  {
    hide Sorted, Strict, Below, Tracked, Actives;
    NotFound(t, x.index);
    var at := Oldest(t, |t|);
    if room {
      AppendKeeps(t, x);
      StrictOrdered(t + [x]);
      SortedOfOrdered(t + [x]);
    } else if at < |t| {
      BelowAt(t, x.index, at);
      ReplaceKeeps(t, at, x);
    }
  }

  lemma OpenKeeps(s: Store, e: Event)
    requires Inv(s) && e.Open? && EventOk(s, e)
    ensures Inv(Step(s, e)) && |Step(s, e).t| <= Max(MAX_FILES, |s.t| - EVICT_PER_PASS + 1)
  {
    hide Enforce, AddOrEvict, Sorted, Strict, Below, Tracked, Actives, CountLimit;
    PassKeeps(s.t, e.env, 1, s.next);
    CapLimit(e.env);
    var t, x := Enforce(s.t, e.env, 1, EVICT_PER_PASS).t, NewEntry(s, e);
    BelowMore(t, s.next);
    TrackKeeps(t, x, e.room);
    var (r, evicted) := AddOrEvict(t, x, e.room);
    if e.ok && evicted != Some(x) { OpenInv(s, Sorted(r), e.w); }
  }

  lemma CapLimit(env: Env)
    requires env.maxFiles == MAX_FILES
    ensures CountLimit(env, 1) == MAX_FILES - 1 && CountLimit(env, 0) == MAX_FILES
  {
  }

  lemma BelowMore(t: seq<FsEntry>, next: int)
    requires Below(t, next)
    ensures Below(t, next + 1)
  {
  }

  lemma TrackedBelow(t: seq<FsEntry>, next: int)
    requires Below(t, next)
    ensures forall index: u32 :: Tracked(t, index) ==> index < next
  {
  }

  lemma BelowAt(t: seq<FsEntry>, next: int, at: nat)
    requires Below(t, next) && at < |t|
    ensures t[at].index < next
  {
  }

  /** Overwriting an entry with one of the same index. */
  lemma PutKeeps(t: seq<FsEntry>, at: nat, e: FsEntry, next: int)
    requires Strict(t) && Below(t, next) && at < |t| && e.index == t[at].index
    ensures var r := t[at := e];
            && Strict(r) && Below(r, next)
            && forall index :: Tracked(t, index) && (t[at].active && index == e.index ==> e.active) ==>
                Tracked(r, index)
  {
    var r := t[at := e];
    forall index | Tracked(t, index) && (t[at].active && index == e.index ==> e.active) ensures Tracked(r, index) {
      var i :| 0 <= i < |t| && t[i].index == index && t[i].active;
      assert r[i].index == index && r[i].active;
    }
  }

  lemma CloseKeeps(s: Store, e: Event)
    requires Inv(s) && e.Close?
    ensures Inv(Step(s, e)) && |Step(s, e).t| == |s.t|
  {
    hide Sorted, Strict, Below, Tracked, Actives;
    if e.w in s.open {
      var index := s.open[e.w];
      var x := ClosedEntry(index, e);
      FindTracked(s.t, index);
      var at := Find(s.t, index);
      var r := s.t[at := x];
      PutKeeps(s.t, at, x, s.next);
      ActivesPut(s.t, at, x);
      StrictOrdered(r);
      SortedOfOrdered(r);
    }
  }

  lemma RetainKeeps(s: Store, e: Event)
    requires Inv(s) && e.Retain? && EventOk(s, e)
    ensures Inv(Step(s, e)) && |Step(s, e).t| <= |s.t| && |Step(s, e).t| <= Max(MAX_FILES, |s.t| - EVICT_PER_PASS)
  {
    hide Enforce, Strict, Below, Tracked, Actives;
    PassKeeps(s.t, e.env, 0, s.next);
    CapLimit(e.env);
  }

  lemma FillKeeps(s: Store, e: Event)
    requires Inv(s) && e.Fill? && EventOk(s, e)
    ensures Inv(Step(s, e)) && |Step(s, e).t| == |s.t|
  {
    hide Strict, Below, Tracked, Actives;
    var x := s.t[e.at].(bytes := e.bytes, hydrated := true);
    PutKeeps(s.t, e.at, x, s.next);
    ActivesPut(s.t, e.at, x);
  }

  // ---- whole runs --------------------------------------------------------

  predicate RunOk(s: Store, es: seq<Event>)
    decreases |es|, 0
  {
    es == [] || (RunOk(s, es[..|es| - 1]) && EventOk(After(s, es[..|es| - 1]), es[|es| - 1]))
  }

  function After(s: Store, es: seq<Event>): Store
    requires RunOk(s, es)
    decreases |es|, 1
  {
    if es == [] then s else Step(After(s, es[..|es| - 1]), es[|es| - 1])
  }

  /** How many retention passes a run makes. */
  function Passes(es: seq<Event>): nat {
    if es == [] then 0 else Passes(es[..|es| - 1]) + if es[|es| - 1].Retain? then 1 else 0
  }

  lemma StepKeeps(s: Store, e: Event)
    requires Inv(s) && EventOk(s, e)
    ensures Inv(Step(s, e)) && |Step(s, e).t| <= Max(MAX_FILES, |s.t|)
    ensures !e.Open? ==> |Step(s, e).t| <= |s.t|
    ensures e.Retain? ==> |Step(s, e).t| <= Max(MAX_FILES, |s.t| - EVICT_PER_PASS)
  {
    hide Inv, Step, EventOk;
    match e
    case Open(_, _, _, _, _, _) => OpenKeeps(s, e);
    case Close(_, _, _, _) => CloseKeeps(s, e);
    case Retain(_) => RetainKeeps(s, e);
    case Fill(_, _) => FillKeeps(s, e);
  }

  /** The cap is a run invariant: the index never holds more files than the
      larger of 96 and what it held; so once at most 96, always. */
  lemma {:induction false} CapHolds(s: Store, es: seq<Event>)
    requires Inv(s) && RunOk(s, es)
    ensures Inv(After(s, es)) && |After(s, es).t| <= Max(MAX_FILES, |s.t|)
    decreases |es|
  {
    hide Inv, Step, EventOk;
    if es != [] {
      CapHolds(s, es[..|es| - 1]);
      StepKeeps(After(s, es[..|es| - 1]), es[|es| - 1]);
    }
  }

  /** With nothing opened, a backlog of n files is at the cap after
      ceil((n - 96) / 8) passes, whatever is closed or written meanwhile. */
  lemma {:induction false} BacklogDrains(s: Store, es: seq<Event>)
    requires Inv(s) && RunOk(s, es) && forall e :: e in es ==> !e.Open?
    ensures Inv(After(s, es)) && |After(s, es).t| <= Max(MAX_FILES, |s.t| - EVICT_PER_PASS * Passes(es))
    ensures |s.t| <= MAX_FILES + EVICT_PER_PASS * Passes(es) ==> |After(s, es).t| <= MAX_FILES
    decreases |es|
  {
    hide Inv, Step, EventOk;
    if es != [] {
      BacklogDrains(s, es[..|es| - 1]);
      StepKeeps(After(s, es[..|es| - 1]), es[|es| - 1]);
    }
  }

  /** At most three entries are ever active, and they are the open files. */
  lemma FewActive(s: Store)
    requires Inv(s)
    ensures Actives(s.t) <= 3
  {
  }

  // ---- the index in place ------------------------------------------------

  /** The index half of openActive: retention, tracking, sorting. ok is what
      creating the file returned. */
  method OpenEntry(tab: FsTable, ghost s: Store, ghost e: Event, env: Env, ok: bool, x: FsEntry) returns (done: bool)
    requires tab.Valid() && s.t == tab.Contents() && e.Open? && EventOk(s, e) && e.env == env && e.ok == ok
             && x == NewEntry(s, e)
    requires e.room == (|Enforce(s.t, env, 1, EVICT_PER_PASS).t| < tab.Capacity())
    modifies tab, tab.v
    ensures tab.Valid() && tab.Contents() == Step(s, e).t
    ensures done <==> e.w in Step(s, e).open
  {
    hide Sorted, Enforce, AddOrEvict;
    var removed, log, more, stuck := EnforceRetention(tab, env, 1, EVICT_PER_PASS);
    if !ok { return false; }
    var evicted := tab.AddOrEvictEntry(x);
    if evicted == Some(x) {
      Refused(Enforce(s.t, env, 1, EVICT_PER_PASS).t, x, e.room);
      return false;
    }
    tab.Sort();
    done := true;
  }

  lemma Refused(t: seq<FsEntry>, x: FsEntry, room: bool)
    requires AddOrEvict(t, x, room).1 == Some(x) && x.active
    ensures AddOrEvict(t, x, room).0 == t
  {
  }

  /** The index half of closeActive. */
  method CloseEntry(tab: FsTable, ghost s: Store, ghost e: Event, x: FsEntry)
    requires tab.Valid() && Inv(s) && s.t == tab.Contents()
    requires e.Close? && e.w in s.open && x == ClosedEntry(s.open[e.w], e)
    modifies tab, tab.v
    ensures tab.Valid() && tab.Contents() == Step(s, e).t
  {
    hide Sorted, Strict, Below, Tracked, Actives;
    FindTracked(s.t, s.open[e.w]);
    var evicted := tab.AddOrEvictEntry(x);
    tab.Sort();
  }
}
