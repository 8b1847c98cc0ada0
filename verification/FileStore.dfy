/** The file store as an action system: what LittleFS and the NVS partition
    hold, what RAM holds while there is power, and every single write between
    them as a step of its own, so that power can go between any two. */
module FileStore {
  import opened Words
  import opened Options
  import opened FsIndex

  /** One number per tier, as lostFiles[3] and lostBytes[3]. */
  datatype PerTier = PerTier(a: nat, b: nat, c: nat) {
    function Of(t: Tier): nat {
      if t == TierA then a else if t == TierB then b else c
    }

    function Put(t: Tier, n: nat): PerTier {
      if t == TierA then this.(a := n) else if t == TierB then this.(b := n) else this.(c := n)
    }

    function Plus(t: Tier, n: nat): PerTier { Put(t, Of(t) + n) }

    function Total(): nat { a + b + c }
  }

  function NoLoss(): PerTier { PerTier(0, 0, 0) }
  const WARN_USAGE_PCT: u8 := 70
  const U64 := 0x1_0000_0000_0000_0000

  function Wrap64(n: nat): nat { n % U64 }

  /** A data file, open (.part) or closed (.log). */
  datatype Data = Data(tier: Tier, bytes: u32)

  /** A .meta sidecar: created and not yet complete, or complete. */
  datatype Meta = Torn | Whole(bytes: u32)

  datatype Disk = Disk(parts: map<u32, Data>, logs: map<u32, Data>, metas: map<u32, Meta>)

  /** The NVS keys idx, ack, lf0..lf2, lb0..lb2, lostack. */
  datatype Nvs = Nvs(idx: u32, ack: i32, files: PerTier, bytes: PerTier, lostAck: u32)

  /** An index entry; every one says what retention would read of the file. */
  datatype Entry = Entry(tier: Tier, bytes: u32, closed: bool, active: bool)

  /** Where the one task that runs the store stands between two writes. */
  datatype Pc =
    | Idle
    | Opening(index: u32, tier: Tier)             // idx is written
    | WritingMeta(index: u32)                     // .meta exists, empty
    | Renaming(index: u32)                        // .meta done, or not to be had
    | DataGone(index: u32, e: Entry, acked: bool) // the .log or .part is removed
    | MetaGone(index: u32, e: Entry)              // so is the .meta; an unacked loss
    | Counted(index: u32, e: Entry)               // lf is written
    | AckPending(through: i32)                    // RAM has the watermark
    | LossPending(lost: u32)

  datatype Ram = Ram(table: map<u32, Entry>, ack: i32, files: PerTier, bytes: PerTier, lostAck: u32, pc: Pc)

  /** What happened, which nobody stores: indices taken, unacked files and
      bytes destroyed, those whose record was cut off by a power loss, acked
      files freed, indices that never became a file, power cuts, and the files
      whose sidecar could not be opened. */
  datatype History = History(taken: nat, destroyed: PerTier, destroyedBytes: PerTier,
                             missed: PerTier, missedBytes: PerTier,
                             freed: nat, skipped: nat, cuts: nat, bare: set<u32>)

  datatype State = State(disk: Disk, nvs: Nvs, ram: Option<Ram>, h: History)

  datatype Action =
    | TakeIndex(tier: Tier)               // nextIndex: the idx key
    | CreatePart(ok: bool)                // the .part appears and is tracked
    | Write(index: u32, n: nat)
    | OpenMeta(index: u32, ok: bool)      // closeActive begins: the empty .meta
    | FinishMeta
    | Rename                              // .part becomes .log
    | RemoveData(index: u32)              // an eviction begins
    | RemoveMeta
    | RecordFiles                         // lf<slot>
    | RecordBytes                         // lb<slot>
    | Ack(through: i32)                   // filestoreAck, in RAM
    | PutAck
    | AckLoss(lost: u32)                  // filestoreAckLoss, in RAM
    | PutLostAck
    | PowerCut(kept: map<u32, nat>)       // unflushed bytes of open files go
    | Boot

  /** fsLostFilesTotal. */
  function LostTotal(files: PerTier): u32 { Wrap(files.Total()) }

  /** filestoreWarn; pct is what filestoreUsagePct says. */
  predicate Warn(r: Ram, pct: u8) { pct >= WARN_USAGE_PCT || LostTotal(r.files) > r.lostAck }

  predicate Running(s: State, pc: Pc) { s.ram.Some? && s.ram.value.pc == pc }

  predicate Active(s: State, index: u32) {
    s.ram.Some? && index in s.ram.value.table && s.ram.value.table[index].active && index in s.disk.parts
  }

  predicate Enabled(s: State, a: Action) {
    match a
    case Boot => s.ram.None?
    case PowerCut(kept) => s.ram.Some?
    case CreatePart(_) => s.ram.Some? && s.ram.value.pc.Opening?
    case FinishMeta => s.ram.Some? && s.ram.value.pc.WritingMeta? && s.ram.value.pc.index in s.disk.parts
    case Rename => s.ram.Some? && s.ram.value.pc.Renaming? && s.ram.value.pc.index in s.disk.parts
    case RemoveMeta => s.ram.Some? && s.ram.value.pc.DataGone?
    case RecordFiles => s.ram.Some? && s.ram.value.pc.MetaGone?
    case RecordBytes => s.ram.Some? && s.ram.value.pc.Counted?
    case PutAck => s.ram.Some? && s.ram.value.pc.AckPending?
    case PutLostAck => s.ram.Some? && s.ram.value.pc.LossPending?
    case TakeIndex(_) => Running(s, Idle)
    case Write(index, n) => Running(s, Idle) && Active(s, index) && s.disk.parts[index].bytes + n < U32
    case OpenMeta(index, _) => Running(s, Idle) && Active(s, index)
    case RemoveData(index) => Running(s, Idle) && index in s.ram.value.table && !s.ram.value.table[index].active
    case Ack(_) => Running(s, Idle)
    case AckLoss(_) => Running(s, Idle)
  }

  /** The files an active writer holds lose what was not flushed. */
  function Cut(parts: map<u32, Data>, kept: map<u32, nat>): map<u32, Data> {
    map i | i in parts :: if i in kept && kept[i] < parts[i].bytes then Data(parts[i].tier, kept[i]) else parts[i]
  }

  /** loadLossRecord, then the scan of the directory. */
  function Booted(d: Disk, v: Nvs): Ram {
    Ram(Scan(d), v.ack, v.files, v.bytes, v.lostAck, Idle)
  }

  function Scan(d: Disk): map<u32, Entry> {
    map i | i in d.parts.Keys + d.logs.Keys ::
      if i in d.logs then Entry(d.logs[i].tier, d.logs[i].bytes, true, false)
      else Entry(d.parts[i].tier, d.parts[i].bytes, false, false)
  }

  /** What a power cut at this point leaves unrecorded for ever. */
  function CutHistory(h: History, pc: Pc): History {
    var h := h.(cuts := h.cuts + 1);
    match pc
    case Opening(_, _) => h.(skipped := h.skipped + 1)
    case DataGone(_, e, false) =>
      h.(missed := h.missed.Plus(e.tier, 1), missedBytes := h.missedBytes.Plus(e.tier, e.bytes))
    case MetaGone(_, e) => h.(missed := h.missed.Plus(e.tier, 1), missedBytes := h.missedBytes.Plus(e.tier, e.bytes))
    case Counted(_, e) => h.(missedBytes := h.missedBytes.Plus(e.tier, e.bytes))
    case _ => h
  }

  predicate Opens(a: Action) { a.TakeIndex? || a.CreatePart? || a.Write? }

  predicate Closes(a: Action) { a.OpenMeta? || a.FinishMeta? || a.Rename? }

  predicate Removes(a: Action) { a.RemoveData? || a.RemoveMeta? || a.RecordFiles? || a.RecordBytes? }

  predicate Hears(a: Action) { a.Ack? || a.PutAck? || a.AckLoss? || a.PutLostAck? }

  /** openActive and the writes to an open file. */
  function OpenStep(s: State, r: Ram, a: Action): State
    requires s.ram == Some(r) && Enabled(s, a) && Opens(a)
  {
    var (d, v, h) := (s.disk, s.nvs, s.h);
    match a
    case TakeIndex(tier) =>
      State(d, v.(idx := Wrap(v.idx + 1)), Some(r.(pc := Opening(v.idx, tier))), h.(taken := h.taken + 1))
    case CreatePart(ok) =>
      var i, tier := r.pc.index, r.pc.tier;
      if ok then
        State(d.(parts := d.parts[i := Data(tier, 0)]), v,
              Some(r.(table := r.table[i := Entry(tier, 0, false, true)], pc := Idle)), h)
      else
        State(d, v, Some(r.(pc := Idle)), h.(skipped := h.skipped + 1))
    case Write(i, n) =>
      var f := Data(d.parts[i].tier, d.parts[i].bytes + n);
      State(d.(parts := d.parts[i := f]), v, Some(r.(table := r.table[i := r.table[i].(bytes := f.bytes)])), h)
  }

  /** closeActive. */
  function CloseStep(s: State, r: Ram, a: Action): State
    requires s.ram == Some(r) && Enabled(s, a) && Closes(a)
  {
    var (d, v, h) := (s.disk, s.nvs, s.h);
    match a
    case OpenMeta(i, ok) =>
      if ok then State(d.(metas := d.metas[i := Torn]), v, Some(r.(pc := WritingMeta(i))), h)
      else State(d, v, Some(r.(pc := Renaming(i))), h.(bare := h.bare + {i}))
    case FinishMeta =>
      var i := r.pc.index;
      State(d.(metas := d.metas[i := Whole(d.parts[i].bytes)]), v, Some(r.(pc := Renaming(i))), h)
    case Rename =>
      var i := r.pc.index;
      var f := d.parts[i];
      State(d.(parts := d.parts - {i}, logs := d.logs[i := f]), v,
            Some(r.(table := r.table[i := Entry(f.tier, f.bytes, true, false)], pc := Idle)), h)
  }

  /** An eviction, write by write. */
  function RemoveStep(s: State, r: Ram, a: Action): State
    requires s.ram == Some(r) && Enabled(s, a) && Removes(a)
  {
    var (d, v, h) := (s.disk, s.nvs, s.h);
    match a
    case RemoveData(i) =>
      var e := r.table[i];
      var acked := Signed(i) <= r.ack;
      State(if e.closed then d.(logs := d.logs - {i}) else d.(parts := d.parts - {i}), v,
            Some(r.(pc := DataGone(i, e, acked))),
            if acked then h.(freed := h.freed + 1)
            else h.(destroyed := h.destroyed.Plus(e.tier, 1), destroyedBytes := h.destroyedBytes.Plus(e.tier, e.bytes)))
    case RemoveMeta =>
      var i, e := r.pc.index, r.pc.e;
      State(d.(metas := d.metas - {i}), v,
            Some(if r.pc.acked then r.(table := r.table - {i}, pc := Idle) else r.(pc := MetaGone(i, e))), h)
    case RecordFiles =>
      var i, e := r.pc.index, r.pc.e;
      var files := r.files.Put(e.tier, Wrap(r.files.Of(e.tier) + 1));
      State(d, v.(files := v.files.Put(e.tier, files.Of(e.tier))),
            Some(r.(files := files, bytes := r.bytes.Put(e.tier, Wrap64(r.bytes.Of(e.tier) + e.bytes)),
                    pc := Counted(i, e))), h)
    case RecordBytes =>
      var i, e := r.pc.index, r.pc.e;
      State(d, v.(bytes := v.bytes.Put(e.tier, r.bytes.Of(e.tier))), Some(r.(table := r.table - {i}, pc := Idle)), h)
  }

  /** What the hub acknowledged, in RAM and then in NVS. */
  function HearStep(s: State, r: Ram, a: Action): State
    requires s.ram == Some(r) && Enabled(s, a) && Hears(a)
  {
    var (d, v, h) := (s.disk, s.nvs, s.h);
    match a
    case Ack(n) =>
      State(d, v, Some(if n > r.ack then r.(ack := n, pc := AckPending(n)) else r), h)
    case PutAck =>
      State(d, v.(ack := r.pc.through), Some(r.(pc := Idle)), h)
    case AckLoss(n) =>
      var m := Min(n, LostTotal(r.files));
      State(d, v, Some(if m > r.lostAck then r.(lostAck := m, pc := LossPending(m)) else r), h)
    case PutLostAck =>
      State(d, v.(lostAck := r.pc.lost), Some(r.(pc := Idle)), h)
  }

  function StepRam(s: State, r: Ram, a: Action): State
    requires s.ram == Some(r) && Enabled(s, a) && !a.PowerCut?
  {
    if Opens(a) then OpenStep(s, r, a)
    else if Closes(a) then CloseStep(s, r, a)
    else if Removes(a) then RemoveStep(s, r, a)
    else HearStep(s, r, a)
  }

  /** One write, one request taken in, one power cut or one boot. */
  function Step(s: State, a: Action): State
    requires Enabled(s, a)
  {
    match a
    case Boot => s.(ram := Some(Booted(s.disk, s.nvs)))
    case PowerCut(kept) =>
      State(s.disk.(parts := Cut(s.disk.parts, kept)), s.nvs, None, CutHistory(s.h, s.ram.value.pc))
    case _ => StepRam(s, s.ram.value, a)
  }

  /** An empty partition and empty NVS, before the first boot. */
  function Blank(): State {
    State(Disk(map[], map[], map[]), Nvs(0, -1, NoLoss(), NoLoss(), 0), None,
          History(0, NoLoss(), NoLoss(), NoLoss(), NoLoss(), 0, 0, 0, {}))
  }

  predicate RunOk(s: State, es: seq<Action>)
    decreases |es|, 0
  {
    es == [] || (RunOk(s, es[..|es| - 1]) && Enabled(After(s, es[..|es| - 1]), es[|es| - 1]))
  }

  function After(s: State, es: seq<Action>): State
    requires RunOk(s, es)
    decreases |es|, 1
  {
    if es == [] then s else Step(After(s, es[..|es| - 1]), es[|es| - 1])
  }
}
