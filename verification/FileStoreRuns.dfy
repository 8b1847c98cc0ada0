/** What holds of the file store after every run of writes, power cuts and
    boots, as long as fewer than 2^31 files were ever opened. */
module FileStoreRuns {
  import opened Words
  import opened Options
  import opened FsIndex
  import opened FileStore

  // ---- the disk ----------------------------------------------------------

  predicate PcIs(s: State, index: u32) {
    s.ram.Some? && match s.ram.value.pc
                   case Opening(i, _) => i == index
                   case WritingMeta(i) => i == index
                   case Renaming(i) => i == index
                   case _ => false
  }

  /** The sidecar of i is there and says how long the file is. */
  predicate Sidecar(d: Disk, i: u32, bytes: u32) { i in d.metas && d.metas[i] == Whole(bytes) }

  /** What the disk says of one index: fresh, a .part or a .log and not both; a
      .log has its complete .meta unless that .meta could not be opened; an open
      file that is not being closed has none yet. */
  predicate FileOk(s: State, i: u32) {
    var (d, h) := (s.disk, s.h);
    && (i in d.parts || i in d.logs || i in d.metas || i in h.bare ==> i < h.taken)
    && !(i in d.parts && i in d.logs)
    && !(i in h.bare && i in d.metas)
    && (i in d.logs ==> (i in h.bare || Sidecar(d, i, d.logs[i].bytes)))
    && (Active(s, i) && !PcIs(s, i) ==> i !in h.bare && i !in d.metas)
  }

  predicate DiskInv(s: State) {
    && s.nvs.idx == s.h.taken
    && (forall i: u32 :: FileOk(s, i))
    && (s.ram.Some? ==> PcDisk(s, s.ram.value.pc))
  }

  predicate PcDisk(s: State, pc: Pc) {
    var (d, h) := (s.disk, s.h);
    match pc
    case Opening(i, _) => i < h.taken && i !in d.parts && i !in d.logs && i !in d.metas && i !in h.bare
    case WritingMeta(i) => Active(s, i) && i !in h.bare && i in d.metas
    case Renaming(i) => Active(s, i) && (i in h.bare || Sidecar(d, i, d.parts[i].bytes))
    case _ => true
  }

  // ---- the index in RAM --------------------------------------------------

  function Going(pc: Pc): set<u32> {
    match pc
    case DataGone(i, _, _) => {i}
    case MetaGone(i, _) => {i}
    case Counted(i, _) => {i}
    case _ => {}
  }

  predicate Describes(e: Entry, d: Disk, i: u32) {
    if e.closed then !e.active && i in d.logs && d.logs[i] == Data(e.tier, e.bytes)
    else i in d.parts && d.parts[i] == Data(e.tier, e.bytes)
  }

  function PcOf(s: State): Pc { if s.ram.Some? then s.ram.value.pc else Idle }

  /** The index holds i when it is a file on the disk, and says what that file
      is, or when it is being removed; and no other index. */
  predicate IndexOk(s: State, r: Ram, i: u32) {
    && (i in r.table <==> i in s.disk.parts || i in s.disk.logs || i in Going(r.pc))
    && !((i in s.disk.parts || i in s.disk.logs) && i in Going(r.pc))
    && (i in r.table && i !in Going(r.pc) ==> Describes(r.table[i], s.disk, i))
  }

  predicate TableInv(s: State) { s.ram.Some? ==> forall i: u32 :: IndexOk(s, s.ram.value, i) }

  // ---- the loss record ---------------------------------------------------

  /** The unacked eviction under way whose file count is not written yet. */
  function PendingFiles(pc: Pc): PerTier {
    match pc
    case DataGone(_, e, false) => NoLoss().Plus(e.tier, 1)
    case MetaGone(_, e) => NoLoss().Plus(e.tier, 1)
    case _ => NoLoss()
  }

  function PendingBytes(pc: Pc): PerTier {
    match pc
    case DataGone(_, e, false) => NoLoss().Plus(e.tier, e.bytes)
    case MetaGone(_, e) => NoLoss().Plus(e.tier, e.bytes)
    case Counted(_, e) => NoLoss().Plus(e.tier, e.bytes)
    case _ => NoLoss()
  }

  /** a == b + c + d, tier by tier. */
  predicate Splits(a: PerTier, b: PerTier, c: PerTier, d: PerTier) {
    a.a == b.a + c.a + d.a && a.b == b.b + c.b + d.b && a.c == b.c + c.c + d.c
  }

  /** Destroyed is recorded, or missed, or about to be recorded. */
  predicate LossInv(s: State) {
    && Splits(s.h.destroyed, s.nvs.files, s.h.missed, PendingFiles(PcOf(s)))
    && Splits(s.h.destroyedBytes, s.nvs.bytes, s.h.missedBytes, PendingBytes(PcOf(s)))
    && s.h.missed.Total() <= s.h.cuts
    && s.h.destroyedBytes.Total() <= 0x1_0000_0000 * s.h.destroyed.Total()
    && s.nvs.files.Total() <= s.h.destroyed.Total() <= s.h.taken < I31
    && s.nvs.lostAck <= s.nvs.files.Total()
    && (s.ram.Some? ==> RamLoss(s.nvs, s.ram.value))
  }

  /** RAM and NVS agree, but for the write under way. */
  predicate RamLoss(v: Nvs, r: Ram) {
    && r.files == v.files
    && r.bytes == (if r.pc.Counted? then v.bytes.Plus(r.pc.e.tier, r.pc.e.bytes) else v.bytes)
    && r.ack == (if r.pc.AckPending? then r.pc.through else v.ack)
    && r.lostAck == (if r.pc.LossPending? then r.pc.lost else v.lostAck)
    && v.ack <= r.ack && v.lostAck <= r.lostAck <= v.files.Total()
  }

  // ---- no file goes unaccounted ------------------------------------------

  function Files(d: Disk): nat { |d.parts| + |d.logs| }

  function Openings(pc: Pc): nat {
    match pc
    case Opening(_, _) => 1
    case _ => 0
  }

  /** Every index ever taken is a file on the disk, a recorded or unrecorded
      loss, an acked file freed, or never became a file. */
  predicate CountInv(s: State) {
    s.h.taken == Files(s.disk) + s.h.destroyed.Total() + s.h.freed + s.h.skipped
                 + Openings(PcOf(s))
  }

  ghost predicate Inv(s: State) { DiskInv(s) && TableInv(s) && LossInv(s) && CountInv(s) }

  // ---- steps keep it -----------------------------------------------------

  lemma MapPut<V>(m: map<u32, V>, k: u32, v: V)
    ensures |m[k := v]| == if k in m then |m| else |m| + 1
  {
    assert m[k := v].Keys == m.Keys + {k};
    if k in m { assert m.Keys + {k} == m.Keys; }
  }

  lemma MapDrop<V>(m: map<u32, V>, k: u32)
    ensures |m - {k}| == if k in m then |m| - 1 else |m|
  {
    assert (m - {k}).Keys == m.Keys - {k};
    if k !in m { assert m.Keys - {k} == m.Keys; }
  }

  lemma CutKeys(parts: map<u32, Data>, kept: map<u32, nat>)
    ensures Cut(parts, kept).Keys == parts.Keys && |Cut(parts, kept)| == |parts|
  {
    assert Cut(parts, kept).Keys == parts.Keys;
  }

  predicate Moves(a: Action) { a.CreatePart? || a.Write? || Closes(a) }

  lemma TakenGrows(s: State, a: Action)
    requires Enabled(s, a)
    ensures s.h.taken <= Step(s, a).h.taken && s.h.bare <= Step(s, a).h.bare
  {
  }

  /** What steps keep of index i, given what holds of it before. */
  predicate Holds(s: State, i: u32) {
    FileOk(s, i) && (s.ram.Some? ==> PcDisk(s, s.ram.value.pc) && IndexOk(s, s.ram.value, i))
  }

  lemma FileOpens(s: State, a: Action, i: u32)
    requires Holds(s, i) && Enabled(s, a) && (Opens(a) || Hears(a))
    ensures FileOk(Step(s, a), i)
  {
    hide CloseStep, RemoveStep, Describes;
  }

  lemma FileCloses(s: State, a: Action, i: u32)
    requires Holds(s, i) && Enabled(s, a) && Closes(a)
    ensures FileOk(Step(s, a), i)
  {
    hide OpenStep, RemoveStep, HearStep, Describes;
  }

  lemma FileLeaves(s: State, a: Action, i: u32)
    requires Holds(s, i) && Enabled(s, a) && (Removes(a) || a.Boot? || a.PowerCut?)
    ensures FileOk(Step(s, a), i)
  {
    hide OpenStep, CloseStep, HearStep, PerTier.Plus, PerTier.Put;
  }

  lemma FileKept(s: State, a: Action, i: u32)
    requires Holds(s, i) && Enabled(s, a)
    ensures FileOk(Step(s, a), i)
  {
    hide Holds, FileOk, Step, Enabled;
    if Opens(a) || Hears(a) {
      FileOpens(s, a, i);
    } else if Closes(a) {
      FileCloses(s, a, i);
    } else {
      FileLeaves(s, a, i);
    }
  }

  lemma PcKept(s: State, a: Action)
    requires DiskInv(s) && TableInv(s) && Enabled(s, a) && Step(s, a).h.taken < I31
    ensures var r := Step(s, a); r.nvs.idx == r.h.taken && (r.ram.Some? ==> PcDisk(r, r.ram.value.pc))
  {
    hide Scan, PerTier.Plus, PerTier.Put;
    assert FileOk(s, s.nvs.idx);
    if a.OpenMeta? { assert FileOk(s, a.index); }
  }

  lemma IndexOpens(s: State, a: Action, i: u32)
    requires Holds(s, i) && Enabled(s, a) && (Opens(a) || Hears(a))
    ensures IndexOk(Step(s, a), Step(s, a).ram.value, i)
  {
    hide CloseStep, RemoveStep;
  }

  lemma IndexCloses(s: State, a: Action, i: u32)
    requires Holds(s, i) && Enabled(s, a) && Closes(a)
    ensures IndexOk(Step(s, a), Step(s, a).ram.value, i)
  {
    hide OpenStep, RemoveStep, HearStep, Sidecar;
  }

  lemma IndexLeaves(s: State, a: Action, i: u32)
    requires Holds(s, i) && Enabled(s, a) && (Removes(a) || a.Boot?)
    ensures IndexOk(Step(s, a), Step(s, a).ram.value, i)
  {
    hide OpenStep, CloseStep, HearStep, Sidecar, PerTier.Plus, PerTier.Put;
  }

  lemma IndexKept(s: State, a: Action, i: u32)
    requires Holds(s, i) && Enabled(s, a) && Step(s, a).ram.Some?
    ensures IndexOk(Step(s, a), Step(s, a).ram.value, i)
  {
    hide Holds, IndexOk, StepRam, Enabled;
    if Opens(a) || Hears(a) {
      IndexOpens(s, a, i);
    } else if Closes(a) {
      IndexCloses(s, a, i);
    } else {
      IndexLeaves(s, a, i);
    }
  }

  lemma DiskKept(s: State, a: Action)
    requires DiskInv(s) && TableInv(s) && Enabled(s, a) && Step(s, a).h.taken < I31
    ensures DiskInv(Step(s, a)) && TableInv(Step(s, a))
  {
    hide FileOk, IndexOk, PcDisk, Step, Enabled;
    PcKept(s, a);
    var r := Step(s, a);
    forall i: u32 ensures FileOk(r, i) && (r.ram.Some? ==> IndexOk(r, r.ram.value, i)) {
      assert FileOk(s, i) && (s.ram.Some? ==> IndexOk(s, s.ram.value, i));
      FileKept(s, a, i);
      if r.ram.Some? { IndexKept(s, a, i); }
    }
  }

  lemma Wrap64Fits(n: nat)
    requires n < U64
    ensures Wrap64(n) == n
  {
  }

  /** A destroyed file goes from none to pending to recorded or missed. */
  lemma Accounts(a: PerTier, b: PerTier, c: PerTier, t: Tier, n: nat)
    ensures Splits(a, b, c, NoLoss()) ==> Splits(a.Plus(t, n), b, c, NoLoss().Plus(t, n))
    ensures Splits(a, b, c, NoLoss().Plus(t, n)) ==>
            Splits(a, b.Plus(t, n), c, NoLoss()) && Splits(a, b, c.Plus(t, n), NoLoss())
    ensures Splits(a, b, c, NoLoss().Plus(t, n)) ==> b.Of(t) + n <= a.Of(t) <= a.Total() && b.Total() + n <= a.Total()
  {
  }

  lemma PlusTotal(p: PerTier, t: Tier, n: nat)
    ensures p.Plus(t, n).Total() == p.Total() + n
  {
  }

  /** The counters fit their widths, so recording a loss adds it. */
  lemma RecordAdds(s: State)
    requires LossInv(s) && Enabled(s, RecordFiles)
    ensures var (r, e) := (Step(s, RecordFiles), s.ram.value.pc.e);
            && r.nvs == s.nvs.(files := s.nvs.files.Plus(e.tier, 1)) && r.h == s.h
            && r.ram == Some(s.ram.value.(files := s.nvs.files.Plus(e.tier, 1),
                                          bytes := s.nvs.bytes.Plus(e.tier, e.bytes),
                                          pc := Counted(s.ram.value.pc.index, e)))
  {
    hide Wrap64, Splits, PerTier.Total, OpenStep, CloseStep, HearStep;
    var r := s.ram.value;
    Accounts(s.h.destroyed, s.nvs.files, s.h.missed, r.pc.e.tier, 1);
    Accounts(s.h.destroyedBytes, s.nvs.bytes, s.h.missedBytes, r.pc.e.tier, r.pc.e.bytes);
    Wrap64Fits(r.bytes.Of(r.pc.e.tier) + r.pc.e.bytes);
  }

  lemma FilesKept(s: State, a: Action)
    requires LossInv(s) && Enabled(s, a) && a.RecordFiles?
    ensures LossInv(Step(s, a))
  {
    hide Step, Splits, PerTier.Total, PerTier.Plus;
    var e := s.ram.value.pc.e;
    RecordAdds(s);
    Accounts(s.h.destroyed, s.nvs.files, s.h.missed, e.tier, 1);
    PlusTotal(s.nvs.files, e.tier, 1);
  }

  lemma BytesKept(s: State, a: Action)
    requires LossInv(s) && Enabled(s, a) && (a.RecordBytes? || a.RemoveMeta?)
    ensures LossInv(Step(s, a))
  {
    hide Splits, PerTier.Total;
    var e := s.ram.value.pc.e;
    Accounts(s.h.destroyedBytes, s.nvs.bytes, s.h.missedBytes, e.tier, e.bytes);
  }

  lemma DestroyKept(s: State, i: u32)
    requires LossInv(s) && Enabled(s, RemoveData(i)) && Step(s, RemoveData(i)).h.destroyed.Total() <= s.h.taken
    ensures LossInv(Step(s, RemoveData(i)))
  {
    hide Splits, PerTier.Total, PerTier.Plus;
    var e := s.ram.value.table[i];
    Accounts(s.h.destroyed, s.nvs.files, s.h.missed, e.tier, 1);
    Accounts(s.h.destroyedBytes, s.nvs.bytes, s.h.missedBytes, e.tier, e.bytes);
    PlusTotal(s.h.destroyed, e.tier, 1);
    PlusTotal(s.h.destroyedBytes, e.tier, e.bytes);
  }

  lemma CutKept(s: State, kept: map<u32, nat>)
    requires LossInv(s) && Enabled(s, PowerCut(kept))
    ensures LossInv(Step(s, PowerCut(kept)))
  {
    hide Splits, PerTier.Total, PerTier.Plus, Cut;
    match s.ram.value.pc
    case DataGone(_, e, false) => CutAccounts(s, e);
    case MetaGone(_, e) => CutAccounts(s, e);
    case Counted(_, e) => CutAccounts(s, e);
    case _ =>
  }

  lemma CutAccounts(s: State, e: Entry)
    ensures var (d, f, m) := (s.h.destroyed, s.nvs.files, s.h.missed);
            Splits(d, f, m, NoLoss().Plus(e.tier, 1)) ==> Splits(d, f, m.Plus(e.tier, 1), NoLoss())
    ensures var (d, f, m) := (s.h.destroyedBytes, s.nvs.bytes, s.h.missedBytes);
            Splits(d, f, m, NoLoss().Plus(e.tier, e.bytes)) ==> Splits(d, f, m.Plus(e.tier, e.bytes), NoLoss())
    ensures s.h.missed.Plus(e.tier, 1).Total() == s.h.missed.Total() + 1
  {
    Accounts(s.h.destroyed, s.nvs.files, s.h.missed, e.tier, 1);
    Accounts(s.h.destroyedBytes, s.nvs.bytes, s.h.missedBytes, e.tier, e.bytes);
  }

  lemma BootKept(s: State)
    requires LossInv(s) && Enabled(s, Boot)
    ensures LossInv(Step(s, Boot))
  {
    hide Splits, PerTier.Total, Scan;
  }

  lemma AckKept(s: State, a: Action)
    requires LossInv(s) && Enabled(s, a) && (a.Ack? || a.PutAck? || a.AckLoss? || a.PutLostAck?)
    ensures LossInv(Step(s, a))
  {
    hide Splits, PerTier.Total, PerTier.Plus;
  }

  lemma WriteKept(s: State, a: Action)
    requires LossInv(s) && Enabled(s, a) && Step(s, a).h.taken < I31
    requires a.TakeIndex? || Moves(a)
    ensures LossInv(Step(s, a))
  {
    hide Splits, PerTier.Total, PerTier.Plus;
  }

  lemma FilesAfterCreate(s: State, ok: bool)
    requires DiskInv(s) && Enabled(s, CreatePart(ok))
    ensures Files(Step(s, CreatePart(ok)).disk) == Files(s.disk) + if ok then 1 else 0
  {
    MapPut(s.disk.parts, s.ram.value.pc.index, Data(s.ram.value.pc.tier, 0));
  }

  lemma FilesAfterWrite(s: State, i: u32, n: nat)
    requires Enabled(s, Write(i, n))
    ensures Files(Step(s, Write(i, n)).disk) == Files(s.disk)
  {
    MapPut(s.disk.parts, i, Data(s.disk.parts[i].tier, s.disk.parts[i].bytes + n));
  }

  lemma FilesAfterClose(s: State, a: Action)
    requires DiskInv(s) && Enabled(s, a) && Closes(a)
    ensures Files(Step(s, a).disk) == Files(s.disk)
  {
    if a.Rename? {
      var i := s.ram.value.pc.index;
      assert FileOk(s, i);
      MapDrop(s.disk.parts, i);
      MapPut(s.disk.logs, i, s.disk.parts[i]);
    }
  }

  lemma FilesAfterRemoval(s: State, i: u32)
    requires DiskInv(s) && TableInv(s) && Enabled(s, RemoveData(i))
    ensures Files(Step(s, RemoveData(i)).disk) == Files(s.disk) - 1
  {
    MapDrop(s.disk.parts, i);
    MapDrop(s.disk.logs, i);
    assert FileOk(s, i) && IndexOk(s, s.ram.value, i);
  }

  lemma FilesAfterOther(s: State, a: Action)
    requires Enabled(s, a) && !Moves(a) && !a.RemoveData?
    ensures Files(Step(s, a).disk) == Files(s.disk)
  {
    if a.PowerCut? { CutKeys(s.disk.parts, a.kept); }
  }

  lemma CountRemoves(s: State, i: u32)
    requires DiskInv(s) && TableInv(s) && CountInv(s) && Enabled(s, RemoveData(i))
    ensures CountInv(Step(s, RemoveData(i)))
  {
    hide DiskInv, TableInv, Files, PerTier.Total, PerTier.Plus, OpenStep, CloseStep, HearStep;
    FilesAfterRemoval(s, i);
    PlusTotal(s.h.destroyed, s.ram.value.table[i].tier, 1);
  }

  lemma CountMoves(s: State, a: Action)
    requires DiskInv(s) && CountInv(s) && Enabled(s, a) && Moves(a)
    ensures CountInv(Step(s, a))
  {
    hide DiskInv, Files, PerTier.Total, PerTier.Plus, RemoveStep, HearStep;
    match a
    case CreatePart(ok) => FilesAfterCreate(s, ok);
    case Write(i, n) => FilesAfterWrite(s, i, n);
    case _ => FilesAfterClose(s, a);
  }

  lemma CountKept(s: State, a: Action)
    requires DiskInv(s) && TableInv(s) && CountInv(s) && Enabled(s, a)
    ensures CountInv(Step(s, a))
  {
    hide DiskInv, TableInv, Files, PerTier.Total, PerTier.Plus, CloseStep, Cut, Scan;
    if a.RemoveData? {
      CountRemoves(s, a.index);
    } else if Moves(a) {
      CountMoves(s, a);
    } else {
      FilesAfterOther(s, a);
    }
  }

  /** Every write, cut and boot keeps the invariant. */
  lemma StepKeeps(s: State, a: Action)
    requires Inv(s) && Enabled(s, a) && Step(s, a).h.taken < I31
    ensures Inv(Step(s, a))
  {
    hide DiskInv, TableInv, LossInv, CountInv, Step, Enabled;
    DiskKept(s, a);
    CountKept(s, a);
    LossKept(s, a);
  }

  lemma LossKept(s: State, a: Action)
    requires LossInv(s) && Enabled(s, a) && CountInv(Step(s, a)) && Step(s, a).h.taken < I31
    ensures LossInv(Step(s, a))
  {
    hide LossInv, Splits;
    match a
    case RemoveData(i) => DestroyKept(s, i);
    case RecordFiles => FilesKept(s, a);
    case RecordBytes => BytesKept(s, a);
    case RemoveMeta => BytesKept(s, a);
    case Boot => BootKept(s);
    case PowerCut(kept) => CutKept(s, kept);
    case Ack(_) => AckKept(s, a);
    case PutAck => AckKept(s, a);
    case AckLoss(_) => AckKept(s, a);
    case PutLostAck => AckKept(s, a);
    case _ => WriteKept(s, a);
  }

  // ---- whole runs --------------------------------------------------------

  lemma {:induction false} RunKeeps(s: State, es: seq<Action>)
    requires Inv(s) && RunOk(s, es) && After(s, es).h.taken < I31
    ensures Inv(After(s, es))
    decreases |es|
  {
    hide Inv, Step, Enabled;
    if es != [] {
      var s' := After(s, es[..|es| - 1]);
      TakenGrows(s', es[|es| - 1]);
      RunKeeps(s, es[..|es| - 1]);
      StepKeeps(s', es[|es| - 1]);
    }
  }

  lemma NothingLost(s: State)
    requires s == Blank()
    ensures PendingFiles(PcOf(s)) == PendingBytes(PcOf(s)) == NoLoss() && Openings(PcOf(s)) == 0
    ensures Splits(NoLoss(), NoLoss(), NoLoss(), NoLoss()) && NoLoss().Total() == 0
  {
  }

  lemma EmptyInv(s: State)
    requires s == Blank()
    ensures Inv(s)
  {
    hide Splits, PerTier.Total, PendingFiles, PendingBytes, Openings, NoLoss;
    NothingLost(s);
  }

  lemma BlankInv()
    ensures Inv(Blank())
  {
    hide Inv, Blank;
    EmptyInv(Blank());
  }

  /** Reachable by some run of fewer than 2^31 files. */
  ghost predicate Reached(es: seq<Action>) { RunOk(Blank(), es) && After(Blank(), es).h.taken < I31 }

  lemma ReachedInv(es: seq<Action>)
    requires Reached(es)
    ensures Inv(After(Blank(), es))
  {
    hide Inv, After, RunOk;
    BlankInv();
    RunKeeps(Blank(), es);
  }

  /** A .log without its complete .meta is one whose .meta could not be
      opened, and no other; and none is on the disk as a .part too. */
  lemma LogsHaveSidecars(es: seq<Action>, i: u32)
    requires Reached(es) && i in After(Blank(), es).disk.logs
    ensures var s := After(Blank(), es);
            && (Sidecar(s.disk, i, s.disk.logs[i].bytes) <==> i !in s.h.bare)
            && i !in s.disk.parts
  {
    hide After, RunOk, TableInv, LossInv, CountInv;
    ReachedInv(es);
    assert FileOk(After(Blank(), es), i);
  }

  lemma SameBare(s: State, a: Action)
    requires Enabled(s, a) && !(a.OpenMeta? && !a.ok)
    ensures Step(s, a).h.bare == s.h.bare
  {
    hide Cut, Scan, PerTier.Plus, PerTier.Put;
  }

  /** While every sidecar opens, none is bare. */
  lemma {:induction false} NoneBare(es: seq<Action>)
    requires RunOk(Blank(), es) && forall a :: a in es ==> !(a.OpenMeta? && !a.ok)
    ensures After(Blank(), es).h.bare == {}
    decreases |es|
  {
    hide Step;
    if es != [] {
      NoneBare(es[..|es| - 1]);
      SameBare(After(Blank(), es[..|es| - 1]), es[|es| - 1]);
    }
  }

  lemma OneMore(s: State, es: seq<Action>, a: Action)
    requires RunOk(s, es) && Enabled(After(s, es), a)
    ensures RunOk(s, es + [a]) && After(s, es + [a]) == Step(After(s, es), a)
  {
    hide Step, Enabled;
    assert (es + [a])[..|es|] == es;
  }

  lemma FirstFile() returns (es: seq<Action>)
    ensures RunOk(Blank(), es)
    ensures var s := After(Blank(), es);
            Running(s, Idle) && Active(s, 0) && 0 !in s.disk.metas && s.h.taken == 1
  {
    hide After, RunOk;
    es := [];
    Nothing(Blank());
    OneMore(Blank(), es, Boot);
    es := es + [Boot];
    OneMore(Blank(), es, TakeIndex(TierA));
    es := es + [TakeIndex(TierA)];
    OneMore(Blank(), es, CreatePart(true));
    es := es + [CreatePart(true)];
  }

  lemma ClosedBare(s: State, i: u32)
    requires Running(s, Idle) && Active(s, i) && i !in s.disk.metas
    ensures var a := OpenMeta(i, false);
            && Enabled(s, a) && Enabled(Step(s, a), Rename)
            && var r := Step(Step(s, a), Rename);
               r.h.taken == s.h.taken && i in r.disk.logs && i !in r.disk.metas
  {
    hide OpenStep, RemoveStep, HearStep;
  }

  /** One sidecar that cannot be opened, and a .log stands alone. */
  lemma BareLogExists()
    ensures exists es, i :: Reached(es) && i in After(Blank(), es).disk.logs && i !in After(Blank(), es).disk.metas
  {
    hide After, RunOk, Step, Enabled;
    var es := FirstFile();
    ClosedBare(After(Blank(), es), 0);
    OneMore(Blank(), es, OpenMeta(0, false));
    OneMore(Blank(), es + [OpenMeta(0, false)], Rename);
    assert Reached(es + [OpenMeta(0, false)] + [Rename]);
  }

  lemma Nothing(s: State)
    ensures RunOk(s, []) && After(s, []) == s
  {
  }

  /** The loss record never overstates a tier, and lags what was destroyed by
      at most one file per power cut, and the one being removed. */
  lemma LossRecordBounds(es: seq<Action>, t: Tier)
    requires Reached(es)
    ensures var s := After(Blank(), es);
            && s.nvs.files.Of(t) <= s.h.destroyed.Of(t)
            && s.nvs.bytes.Of(t) <= s.h.destroyedBytes.Of(t)
            && s.h.destroyed.Total() <= s.nvs.files.Total() + s.h.cuts + PendingFiles(PcOf(s)).Total()
            && PendingFiles(PcOf(s)).Total() <= 1
            && s.nvs.lostAck <= LostTotal(s.nvs.files) == s.nvs.files.Total()
  {
    hide After, RunOk, TableInv, DiskInv, CountInv, Splits, PerTier.Total, PendingFiles, PendingBytes, RamLoss;
    ReachedInv(es);
    var s := After(Blank(), es);
    SplitsMeans(s.h.destroyed, s.nvs.files, s.h.missed, PendingFiles(PcOf(s)), t);
    SplitsMeans(s.h.destroyedBytes, s.nvs.bytes, s.h.missedBytes, PendingBytes(PcOf(s)), t);
    OnePending(PcOf(s));
  }

  lemma SplitsMeans(a: PerTier, b: PerTier, c: PerTier, d: PerTier, t: Tier)
    requires Splits(a, b, c, d)
    ensures a.Total() == b.Total() + c.Total() + d.Total() && b.Of(t) <= a.Of(t)
  {
  }

  lemma NoLossTotal()
    ensures NoLoss().Total() == 0
  {
  }

  lemma OnePending(pc: Pc)
    ensures PendingFiles(pc).Total() <= 1
  {
    hide PerTier.Total, PerTier.Plus, NoLoss;
    NoLossTotal();
    match pc
    case DataGone(_, e, false) => PlusTotal(NoLoss(), e.tier, 1);
    case MetaGone(_, e) => PlusTotal(NoLoss(), e.tier, 1);
    case _ =>
  }

  /** No file is lost sight of: with power on and nothing under way, the index
      is the disk, and every index ever taken is accounted for. */
  lemma NoFileUnaccounted(es: seq<Action>)
    requires Reached(es) && Running(After(Blank(), es), Idle)
    ensures var s := After(Blank(), es);
            && s.ram.value.table.Keys == s.disk.parts.Keys + s.disk.logs.Keys
            && (forall i :: i in s.ram.value.table ==> (s.ram.value.table[i].closed <==> i in s.disk.logs))
            && s.h.taken == |s.disk.parts| + |s.disk.logs| + s.h.destroyed.Total() + s.h.freed + s.h.skipped
  {
    hide After, RunOk, LossInv;
    ReachedInv(es);
    var s := After(Blank(), es);
    forall i: u32
      ensures i in s.ram.value.table <==> i in s.disk.parts || i in s.disk.logs
      ensures i in s.ram.value.table ==> (s.ram.value.table[i].closed <==> i in s.disk.logs)
    {
      assert FileOk(s, i) && IndexOk(s, s.ram.value, i);
    }
  }

  // ---- the warning -------------------------------------------------------

  /** At least `lost` files are recorded as lost, the hub knows of fewer. */
  predicate Unheard(s: State, lost: nat) {
    && s.nvs.lostAck < lost <= s.nvs.files.Total()
    && (s.ram.Some? ==> s.ram.value.lostAck < lost)
  }

  lemma UnheardStays(s: State, a: Action, lost: nat)
    requires LossInv(s) && Enabled(s, a) && LossInv(Step(s, a)) && Unheard(s, lost)
    requires a.AckLoss? ==> a.lost < lost
    ensures Unheard(Step(s, a), lost)
  {
    hide Splits, Cut, Scan;
    if a.RecordFiles? { RecordGrows(s); }
  }

  lemma RecordGrows(s: State)
    requires LossInv(s) && Enabled(s, RecordFiles)
    ensures Step(s, RecordFiles).nvs.files.Total() == s.nvs.files.Total() + 1
  {
    hide Step, LossInv, PerTier.Total, PerTier.Plus;
    RecordAdds(s);
    PlusTotal(s.nvs.files, s.ram.value.pc.e.tier, 1);
  }

  /** An unheard loss keeps the warning on, through power cuts and boots,
      until the hub acknowledges that many. */
  lemma {:induction false} WarnSurvives(s: State, es: seq<Action>, lost: nat)
    requires Inv(s) && Unheard(s, lost) && RunOk(s, es) && After(s, es).h.taken < I31
    requires forall a :: a in es && a.AckLoss? ==> a.lost < lost
    ensures Unheard(After(s, es), lost)
    ensures After(s, es).ram.Some? ==> forall pct :: Warn(After(s, es).ram.value, pct)
    decreases |es|
  {
    hide Step, Enabled, DiskInv, TableInv, CountInv, LossInv;
    if es != [] {
      var es', a := es[..|es| - 1], es[|es| - 1];
      var s' := After(s, es');
      TakenGrows(s', a);
      WarnSurvives(s, es', lost);
      RunKeeps(s, es');
      StepKeeps(s', a);
      UnheardStays(s', a, lost);
    }
    RunKeeps(s, es);
    UnheardWarns(After(s, es), lost);
  }

  lemma UnheardWarns(s: State, lost: nat)
    requires LossInv(s) && Unheard(s, lost)
    ensures s.ram.Some? ==> forall pct :: Warn(s.ram.value, pct)
  {
    hide Splits;
  }

  /** When the warning is on: the usage is at 70 percent or more, or the record
      holds more lost files than the hub has acknowledged. */
  lemma WarnIff(es: seq<Action>, pct: u8)
    requires Reached(es) && After(Blank(), es).ram.Some?
    ensures var s := After(Blank(), es);
            Warn(s.ram.value, pct) <==> pct >= 70 || s.nvs.files.a + s.nvs.files.b + s.nvs.files.c > s.ram.value.lostAck
  {
    hide After, RunOk, DiskInv, TableInv, CountInv, Splits;
    ReachedInv(es);
  }

  /** A store that destroyed no unacked file warns of none. */
  lemma NoLossNoWarning(es: seq<Action>, pct: u8)
    requires Reached(es) && After(Blank(), es).ram.Some? && After(Blank(), es).h.destroyed == NoLoss() && pct < 70
    ensures !Warn(After(Blank(), es).ram.value, pct)
  {
    hide After, RunOk, Reached, Warn;
    WarnIff(es, pct);
    LossRecordBounds(es, TierA);
    LossRecordBounds(es, TierB);
    LossRecordBounds(es, TierC);
  }

  /** An eviction takes the data file off the disk. It is a loss exactly when the
      hub has not acknowledged its index, and then of that file's tier and
      length as the disk had them. */
  lemma UnackedIsLost(s: State, i: u32)
    requires Inv(s) && Enabled(s, RemoveData(i))
    ensures OnDisk(s, i) && !OnDisk(Step(s, RemoveData(i)), i)
    ensures var h := Step(s, RemoveData(i)).h;
            var f := if i in s.disk.logs then s.disk.logs[i] else s.disk.parts[i];
            if (if i < 0x8000_0000 then i else i - 0x1_0000_0000) > s.nvs.ack then
              && h.freed == s.h.freed
              && h.destroyed == s.h.destroyed.Plus(f.tier, 1)
              && h.destroyedBytes == s.h.destroyedBytes.Plus(f.tier, f.bytes)
            else
              && h.freed == s.h.freed + 1
              && h.destroyed == s.h.destroyed
              && h.destroyedBytes == s.h.destroyedBytes
  {
    hide CountInv, OpenStep, CloseStep, HearStep, PerTier.Plus, Splits;
    assert FileOk(s, i) && IndexOk(s, s.ram.value, i);
  }

  /** Recording a loss makes one that is unheard. */
  lemma RecordIsUnheard(s: State)
    requires Inv(s) && Enabled(s, RecordFiles)
    ensures var r := Step(s, RecordFiles); Unheard(r, r.nvs.files.Total())
  {
    hide DiskInv, TableInv, CountInv;
    RecordGrows(s);
  }

  /** An acknowledgement of the whole record clears it, for good until the
      next loss; one of less does not. */
  lemma AckLossClears(s: State, n: u32)
    requires Inv(s) && Running(s, Idle)
    ensures var r := Step(s, AckLoss(n)).ram.value;
            (LostTotal(r.files) > r.lostAck) <==>
            (LostTotal(s.ram.value.files) > n && LostTotal(s.ram.value.files) > s.ram.value.lostAck)
  {
    hide DiskInv, TableInv, CountInv;
  }

  // ---- what never goes back ----------------------------------------------

  predicate NotBelow(v: Nvs, w: Nvs) {
    && v.idx <= w.idx && v.ack <= w.ack && v.lostAck <= w.lostAck
    && v.files.a <= w.files.a && v.files.b <= w.files.b && v.files.c <= w.files.c
    && v.bytes.a <= w.bytes.a && v.bytes.b <= w.bytes.b && v.bytes.c <= w.bytes.c
  }

  lemma StepNotBelow(s: State, a: Action)
    requires DiskInv(s) && LossInv(s) && Enabled(s, a) && Step(s, a).h.taken < I31
    ensures NotBelow(s.nvs, Step(s, a).nvs)
  {
    hide Cut, Scan, OpenStep, HearStep, Splits;
    if Opens(a) || Hears(a) { OthersNotBelow(s, a); }
    if a.RecordFiles? { RecordGrows(s); }
  }

  lemma OthersNotBelow(s: State, a: Action)
    requires LossInv(s) && s.nvs.idx == s.h.taken && Enabled(s, a) && Step(s, a).h.taken < I31 && (Opens(a) || Hears(a))
    ensures NotBelow(s.nvs, Step(s, a).nvs)
  {
    hide CloseStep, RemoveStep, Splits, PerTier.Total;
  }

  /** The index counter, the hub's watermark and the loss record survive every
      power cut and never go back. */
  lemma {:induction false} MarksNeverFall(s: State, es: seq<Action>)
    requires Inv(s) && RunOk(s, es) && After(s, es).h.taken < I31
    ensures NotBelow(s.nvs, After(s, es).nvs)
    decreases |es|
  {
    hide Step, Enabled, DiskInv, TableInv, CountInv, LossInv;
    if es != [] {
      var s' := After(s, es[..|es| - 1]);
      TakenGrows(s', es[|es| - 1]);
      MarksNeverFall(s, es[..|es| - 1]);
      RunKeeps(s, es[..|es| - 1]);
      StepNotBelow(s', es[|es| - 1]);
    }
  }

  predicate OnDisk(s: State, i: u32) { i in s.disk.parts || i in s.disk.logs }

  lemma StaysOnDisk(s: State, a: Action, i: u32)
    requires Enabled(s, a) && OnDisk(s, i) && a != RemoveData(i)
    ensures OnDisk(Step(s, a), i)
  {
  }

  /** A file leaves the disk by an eviction of it and by nothing else. */
  lemma {:induction false} OnlyEvictionRemoves(s: State, es: seq<Action>, i: u32)
    requires RunOk(s, es) && OnDisk(s, i) && RemoveData(i) !in es
    ensures OnDisk(After(s, es), i)
    decreases |es|
  {
    hide Step, Enabled, OnDisk;
    if es != [] {
      OnlyEvictionRemoves(s, es[..|es| - 1], i);
      StaysOnDisk(After(s, es[..|es| - 1]), es[|es| - 1], i);
    }
  }
}
