/** The operations of filestore.cpp in place. A disk or NVS write is a method
    of its own whose precondition says where the task must stand, so that an
    operation is a fixed order of writes: exactly the steps between which
    FileStoreRuns lets the power go. */
module FileStoreOps {
  import opened Words
  import opened Options
  import opened FsIndex
  import opened FileStore
  import opened FileStoreRuns

  /** The steps es lead from s to r. */
  ghost predicate Follows(s: State, es: seq<Action>, r: State)
    decreases |es|
  {
    if es == [] then s == r else Enabled(s, es[0]) && Follows(Step(s, es[0]), es[1..], r)
  }

  lemma {:induction false} RunsOnFrom(s: State, a: Action, es: seq<Action>)
    requires Enabled(s, a) && RunOk(Step(s, a), es)
    ensures RunOk(s, [a] + es) && After(s, [a] + es) == After(Step(s, a), es)
    decreases |es|
  {
    hide Step, Enabled;
    if es == [] {
      assert [a] + es == [a] && [a][..0] == [];
      assert RunOk(s, [a][..0]) && After(s, [a][..0]) == s;
    } else {
      RunsOnFrom(s, a, es[..|es| - 1]);
      assert ([a] + es)[..|es|] == [a] + es[..|es| - 1];
    }
  }

  /** An operation is a run, so whatever holds of runs holds of it. */
  lemma {:induction false} FollowsIsRun(s: State, es: seq<Action>, r: State)
    requires Follows(s, es, r)
    ensures RunOk(s, es) && After(s, es) == r
    decreases |es|
  {
    hide Step, Enabled;
    if es != [] {
      FollowsIsRun(Step(s, es[0]), es[1..], r);
      RunsOnFrom(s, es[0], es[1..]);
      assert [es[0]] + es[1..] == es;
    }
  }

  lemma FollowsOne(s: State, a: Action)
    requires Enabled(s, a)
    ensures Follows(s, [a], Step(s, a))
  {
    hide Step, Enabled;
    assert [a][1..] == [];
  }

  lemma FollowsThen(s: State, a: Action, es: seq<Action>, r: State)
    requires Enabled(s, a) && Follows(Step(s, a), es, r)
    ensures Follows(s, [a] + es, r)
  {
    hide Step, Enabled;
    assert ([a] + es)[1..] == es;
  }

  class Store {
    var disk: Disk
    var nvs: Nvs
    var table: map<u32, Entry>
    var ack: i32
    var files: PerTier
    var bytes: PerTier
    var lostAck: u32
    ghost var pc: Pc
    ghost var h: History

    ghost function State(): State
      reads this
    {
      FileStore.State(disk, nvs, Some(Ram(table, ack, files, bytes, lostAck, pc)), h)
    }

    /** filestoreBegin: loadLossRecord, then the scan. */
    constructor (disk: Disk, nvs: Nvs, ghost h: History)
      ensures State() == Step(FileStore.State(disk, nvs, None, h), Boot)
    {
      this.disk, this.nvs, this.h := disk, nvs, h;
      table := Scan(disk);
      ack, files, bytes, lostAck := nvs.ack, nvs.files, nvs.bytes, nvs.lostAck;
      pc := Idle;
    }

    // ---- single writes ---------------------------------------------------

    /** nextIndex. */
    method NextIndex(tier: Tier) returns (index: u32)
      requires Enabled(State(), TakeIndex(tier))
      modifies this
      ensures State() == Step(old(State()), TakeIndex(tier)) && index == old(nvs.idx)
    {
      index := nvs.idx;
      nvs := nvs.(idx := Wrap(index + 1));
      pc, h := Opening(index, tier), h.(taken := h.taken + 1);
    }

    method CreateFile(index: u32, tier: Tier, ok: bool)
      requires pc == Opening(index, tier)
      modifies this
      ensures State() == Step(old(State()), CreatePart(ok))
    {
      if ok {
        disk := disk.(parts := disk.parts[index := Data(tier, 0)]);
        table := table[index := Entry(tier, 0, false, true)];
      } else {
        h := h.(skipped := h.skipped + 1);
      }
      pc := Idle;
    }

    method CreateMeta(index: u32, ok: bool)
      requires Enabled(State(), OpenMeta(index, ok))
      modifies this
      ensures State() == Step(old(State()), OpenMeta(index, ok))
    {
      if ok {
        disk := disk.(metas := disk.metas[index := Torn]);
        pc := WritingMeta(index);
      } else {
        pc, h := Renaming(index), h.(bare := h.bare + {index});
      }
    }

    method FillMeta(index: u32, size: u32)
      requires pc == WritingMeta(index) && index in disk.parts && size == disk.parts[index].bytes
      modifies this
      ensures State() == Step(old(State()), FinishMeta)
    {
      disk := disk.(metas := disk.metas[index := Whole(size)]);
      pc := Renaming(index);
    }

    method RenamePart(index: u32)
      requires pc == Renaming(index) && index in disk.parts
      modifies this
      ensures State() == Step(old(State()), Rename)
    {
      var f := disk.parts[index];
      disk := disk.(parts := disk.parts - {index}, logs := disk.logs[index := f]);
      table := table[index := Entry(f.tier, f.bytes, true, false)];
      pc := Idle;
    }

    method RemoveDataFile(index: u32, e: Entry)
      requires Enabled(State(), RemoveData(index)) && table[index] == e
      modifies this
      ensures State() == Step(old(State()), RemoveData(index))
    {
      disk := if e.closed then disk.(logs := disk.logs - {index}) else disk.(parts := disk.parts - {index});
      ghost var acked := Signed(index) <= ack;
      pc := DataGone(index, e, acked);
      h := if acked then h.(freed := h.freed + 1)
           else h.(destroyed := h.destroyed.Plus(e.tier, 1), destroyedBytes := h.destroyedBytes.Plus(e.tier, e.bytes));
    }

    method RemoveMetaFile(index: u32, e: Entry, acked: bool)
      requires pc == DataGone(index, e, acked)
      modifies this
      ensures State() == Step(old(State()), RemoveMeta)
    {
      disk := disk.(metas := disk.metas - {index});
      if acked {
        table := table - {index};
        pc := Idle;
      } else {
        pc := MetaGone(index, e);
      }
    }

    method PutLostFiles(index: u32, e: Entry)
      requires pc == MetaGone(index, e)
      modifies this
      ensures State() == Step(old(State()), RecordFiles)
    {
      bytes := bytes.Put(e.tier, Wrap64(bytes.Of(e.tier) + e.bytes));
      files := files.Put(e.tier, Wrap(files.Of(e.tier) + 1));
      nvs := nvs.(files := nvs.files.Put(e.tier, files.Of(e.tier)));
      pc := Counted(index, e);
    }

    method PutLostBytes(index: u32, e: Entry)
      requires pc == Counted(index, e)
      modifies this
      ensures State() == Step(old(State()), RecordBytes)
    {
      nvs := nvs.(bytes := nvs.bytes.Put(e.tier, bytes.Of(e.tier)));
      table := table - {index};
      pc := Idle;
    }

    // ---- operations ------------------------------------------------------

    /** openActive, after retention made room: the index is spent first. */
    method OpenActive(tier: Tier, ok: bool) returns (index: u32)
      requires pc == Idle
      modifies this
      ensures Follows(old(State()), [TakeIndex(tier), CreatePart(ok)], State())
      ensures index == old(nvs.idx) && pc == Idle
      ensures ok ==> index in disk.parts && table[index := Entry(tier, 0, false, true)] == table
    {
      ghost var s := State();
      index := NextIndex(tier);
      FollowsOne(State(), CreatePart(ok));
      CreateFile(index, tier, ok);
      FollowsThen(s, TakeIndex(tier), [CreatePart(ok)], State());
      assert [TakeIndex(tier)] + [CreatePart(ok)] == [TakeIndex(tier), CreatePart(ok)];
    }

    /** closeActive: digest first, rename last. */
    method CloseActive(index: u32, metaOk: bool)
      requires pc == Idle && Active(State(), index)
      modifies this
      ensures Follows(old(State()),
                      if metaOk then [OpenMeta(index, true), FinishMeta, Rename] else [OpenMeta(index, false), Rename],
                      State())
      ensures pc == Idle && index in disk.logs && disk.logs[index] == old(disk.parts[index]) && index !in disk.parts
      ensures metaOk ==> Sidecar(disk, index, disk.logs[index].bytes)
    {
      hide Follows;
      ghost var s := State();
      CreateMeta(index, metaOk);
      ghost var s1 := State();
      if metaOk { FillMeta(index, disk.parts[index].bytes); }
      ghost var s2 := State();
      FollowsOne(s2, Rename);
      RenamePart(index);
      if metaOk {
        FollowsThen(s1, FinishMeta, [Rename], State());
        FollowsThen(s, OpenMeta(index, true), [FinishMeta] + [Rename], State());
        assert [OpenMeta(index, true)] + ([FinishMeta] + [Rename]) == [OpenMeta(index, true), FinishMeta, Rename];
      } else {
        FollowsThen(s, OpenMeta(index, false), [Rename], State());
        assert [OpenMeta(index, false)] + [Rename] == [OpenMeta(index, false), Rename];
      }
    }

    /** lossRecord: the tier's file count, then its byte count. */
    method RecordLoss(index: u32, e: Entry)
      requires pc == MetaGone(index, e)
      modifies this
      ensures Follows(old(State()), [RecordFiles, RecordBytes], State())
      ensures pc == Idle && table == old(table) - {index} && disk == old(disk) && ack == old(ack)
    {
      hide Follows, OpenStep, CloseStep, HearStep;
      ghost var s2 := State();
      PutLostFiles(index, e);
      ghost var s3 := State();
      FollowsOne(s3, RecordBytes);
      PutLostBytes(index, e);
      FollowsThen(s2, RecordFiles, [RecordBytes], State());
      assert [RecordFiles] + [RecordBytes] == [RecordFiles, RecordBytes];
    }

    /** retRemove and fsTableDrop: delete, account, forget. */
    method Remove(index: u32)
      requires pc == Idle && index in table && !table[index].active
      modifies this
      ensures Follows(old(State()), Removal(index, Signed(index) <= ack), State())
      ensures pc == Idle && index !in table && index !in disk.metas && ack == old(ack)
    {
      hide Follows, OpenStep, CloseStep, HearStep;
      var e := table[index];
      var acked := Signed(index) <= ack;
      ghost var s := State();
      RemoveDataFile(index, e);
      ghost var s1 := State();
      FollowsOne(s1, RemoveMeta);
      RemoveMetaFile(index, e, acked);
      if !acked {
        RecordLoss(index, e);
        FollowsThen(s1, RemoveMeta, [RecordFiles, RecordBytes], State());
        assert [RemoveMeta] + [RecordFiles, RecordBytes] == [RemoveMeta, RecordFiles, RecordBytes];
        FollowsThen(s, RemoveData(index), [RemoveMeta, RecordFiles, RecordBytes], State());
      } else {
        FollowsThen(s, RemoveData(index), [RemoveMeta], State());
      }
    }

    /** filestoreAck. */
    method AckThrough(through: i32) returns (r: i32)
      requires pc == Idle && ack == nvs.ack
      modifies this
      ensures Follows(old(State()),
                      if through > old(ack) then [FileStore.Ack(through), PutAck] else [FileStore.Ack(through)],
                      State())
      ensures pc == Idle && r == ack == nvs.ack == Max(old(ack), through)
    {
      hide Follows;
      ghost var s := State();
      if through > ack {
        ack := through;
        pc := AckPending(through);
        ghost var s1 := State();
        FollowsOne(s1, PutAck);
        nvs := nvs.(ack := through);
        pc := Idle;
        FollowsThen(s, FileStore.Ack(through), [PutAck], State());
        assert [FileStore.Ack(through)] + [PutAck] == [FileStore.Ack(through), PutAck];
      } else {
        FollowsOne(s, FileStore.Ack(through));
      }
      r := ack;
    }

    /** filestoreAckLoss: clamped to what was lost, never backwards. */
    method AckLossThrough(lost: u32) returns (r: u32)
      requires pc == Idle && lostAck == nvs.lostAck
      modifies this
      ensures Follows(old(State()), if r > old(lostAck) then [AckLoss(lost), PutLostAck] else [AckLoss(lost)], State())
      ensures pc == Idle && r == lostAck == nvs.lostAck == Max(old(lostAck), Min(lost, LostTotal(files)))
    {
      hide Follows;
      ghost var s := State();
      var m := Min(lost, LostTotal(files));
      if m > lostAck {
        lostAck := m;
        pc := LossPending(m);
        ghost var s1 := State();
        FollowsOne(s1, PutLostAck);
        nvs := nvs.(lostAck := m);
        pc := Idle;
        FollowsThen(s, AckLoss(lost), [PutLostAck], State());
        assert [AckLoss(lost)] + [PutLostAck] == [AckLoss(lost), PutLostAck];
      } else {
        FollowsOne(s, AckLoss(lost));
      }
      r := lostAck;
    }
  }

  function Removal(index: u32, acked: bool): seq<Action> {
    [RemoveData(index)] + if acked then [RemoveMeta] else [RemoveMeta, RecordFiles, RecordBytes]
  }
}
