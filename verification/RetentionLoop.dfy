/** fsEnforceRetention as it runs: the index shrinks in place, and every phase
    is a loop proved equal to the phase on values. */
module RetentionLoop {
  import opened Words
  import opened FsIndex
  import opened Retention

  // ---- the read-only loops -----------------------------------------------

  method FirstAcked(tab: FsTable, acked: i32) returns (at: nat)
    requires tab.Valid()
    ensures at == First(tab.Contents(), AckedOnly(acked))
  {
    ghost var t, want := tab.Contents(), AckedOnly(acked);
    at := 0;
    while at < tab.count && (tab.v[at].active || !IsAcked(tab.v[at], acked))
      invariant at <= tab.count && First(t, want) == FirstFrom(t, want, at)
    {
      assert t[at] == tab.v[at];
      at := at + 1;
    }
    assert at < |t| ==> t[at] == tab.v[at];
  }

  method FirstOfTier(tab: FsTable, tier: Tier) returns (at: nat)
    requires tab.Valid()
    ensures at == First(tab.Contents(), OfTier(tier))
  {
    ghost var t, want := tab.Contents(), OfTier(tier);
    at := 0;
    while at < tab.count && (tab.v[at].active || TierOf(tab.v[at].kind) != tier)
      invariant at <= tab.count && First(t, want) == FirstFrom(t, want, at)
    {
      assert t[at] == tab.v[at];
      at := at + 1;
    }
    assert at < |t| ==> t[at] == tab.v[at];
  }

  /** fsPickVictim. */
  method FindVictim(tab: FsTable, acked: i32) returns (at: nat)
    requires tab.Valid()
    ensures at == PickVictim(tab.Contents(), acked)
  {
    hide First;
    at := FirstAcked(tab, acked);
    if at < tab.count { return; }
    at := FirstOfTier(tab, TierA);
    if at < tab.count { return; }
    at := FirstOfTier(tab, TierB);
    if at < tab.count { return; }
    at := FirstOfTier(tab, TierC);
  }

  method FirstTierA(tab: FsTable, acked: i32, wanted: bool) returns (at: nat)
    requires tab.Valid()
    ensures at == First(tab.Contents(), TierAWith(acked, wanted))
  {
    ghost var t, want := tab.Contents(), TierAWith(acked, wanted);
    at := 0;
    while at < tab.count
      && (tab.v[at].active || TierOf(tab.v[at].kind) != TierA || IsAcked(tab.v[at], acked) != wanted)
      invariant at <= tab.count && First(t, want) == FirstFrom(t, want, at)
    {
      assert t[at] == tab.v[at];
      at := at + 1;
    }
    assert at < |t| ==> t[at] == tab.v[at];
  }

  /** fsPickTierAVictim. */
  method FindTierAVictim(tab: FsTable, acked: i32) returns (at: nat)
    requires tab.Valid()
    ensures at == PickTierAVictim(tab.Contents(), acked)
  {
    hide First;
    at := FirstTierA(tab, acked, true);
    if at == tab.count { at := FirstTierA(tab, acked, false); }
  }

  predicate Counts(e: FsEntry) { e.hydrated && TierOf(e.kind) == TierA }

  lemma SumStep(t: seq<FsEntry>, i: nat)
    requires i < |t|
    ensures TierABytes(t[..i + 1]) == if Counts(t[i]) then Wrap(TierABytes(t[..i]) + t[i].bytes) else TierABytes(t[..i])
  {
    hide Wrap;
    assert t[..i + 1][..i] == t[..i];
    if Counts(t[i]) { WrapAdd(TierASum(t[..i]), t[i].bytes); }
  }

  /** fsTierABytes: a uint32_t sum. */
  method SumTierA(tab: FsTable) returns (sum: u32)
    requires tab.Valid()
    ensures sum == TierABytes(tab.Contents()) == Share(tab.Contents()) % 0x1_0000_0000
  {
    hide Wrap, TierABytes, Limit, Share;
    ghost var t := tab.Contents();
    sum := 0;
    NothingSummed();
    for i := 0 to tab.count
      invariant sum == TierABytes(t[..i])
    {
      SumStep(t, i);
      assert t[i] == tab.v[i];
      if Counts(tab.v[i]) { sum := Wrap(sum + tab.v[i].bytes); }
    }
    assert t[..tab.count] == t;
    BytesAreShare(t);
  }

  lemma BytesAreShare(t: seq<FsEntry>)
    ensures TierABytes(t) == Share(t) % 0x1_0000_0000
  {
    SumIsShare(t);
  }

  lemma NothingSummed()
    ensures TierABytes([]) == 0
  {
  }

  // ---- the phases --------------------------------------------------------

  /** The table and the removals so far are those of w. */
  ghost predicate Agrees(tab: FsTable, removed: seq<FsEntry>, w: Work, env: Env)
    reads tab, tab.v
  {
    tab.Valid() && tab.Contents() == w.t && InBounds(w.log) && removed == RemovedAll(w.log, env)
  }

  lemma RemovedOneMore(w: Work, at: nat, phase: Phase, env: Env)
    requires InBounds(w.log) && at < |w.t|
    ensures InBounds(Evict(w, at, phase).log)
    ensures RemovedAll(Evict(w, at, phase).log, env) == RemovedAll(w.log, env)
            + [Removed(Eviction(w.t, at, phase), env)]
  {
  }

  /** evictAt: read its size, remove it, close the gap. */
  method EvictAt(tab: FsTable, at: nat, env: Env, removed: seq<FsEntry>, ghost w: Work, ghost phase: Phase)
    returns (out: seq<FsEntry>, ghost r: Work)
    requires Agrees(tab, removed, w, env) && at < tab.count
    modifies tab`count, tab.v
    ensures Agrees(tab, out, r, env) && r == Evict(w, at, phase) && tab.v == old(tab.v)
    ensures tab.count == old(tab.count) - 1
    ensures var e := old(tab.v[at]);
            out == removed + [if e.hydrated then e else e.(bytes := env.diskBytes(e.index), hydrated := true)]
  {
    hide RemovedAll, InBounds;
    RemovedOneMore(w, at, phase, env);
    r := Evict(w, at, phase);
    var e := tab.v[at];
    if !e.hydrated { e := e.(bytes := env.diskBytes(e.index), hydrated := true); }
    out := removed + [e];
    tab.DropEntry(at);
  }

  method EvictLeftovers(tab: FsTable, env: Env, budget: nat, removed: seq<FsEntry>, ghost w: Work)
    returns (out: seq<FsEntry>, ghost r: Work, more: bool)
    requires Agrees(tab, removed, w, env)
    modifies tab`count, tab.v
    ensures Agrees(tab, out, r, env) && tab.v == old(tab.v)
    ensures Leftovers(w, 0, env, budget) == (r, if more then More else Done)
  {
    hide RemovedAll, Drop, InBounds;
    out, r, more := removed, w, false;
    var i := 0;
    while i < tab.count
      invariant Agrees(tab, out, r, env) && tab.v == old(tab.v) && i <= tab.count
      invariant Leftovers(w, 0, env, budget) == Leftovers(r, i, env, budget)
      decreases tab.count - i
    {
      SameLength(out, r, env);
      assert tab.v[i] == r.t[i];
      if !IsLeftover(tab.v[i], env.acked) {
        i := i + 1;
      } else if |out| >= budget {
        more := true;
        return;
      } else {
        out, r := EvictAt(tab, i, env, out, r, Leftover);
      }
    }
  }

  lemma SameLength(removed: seq<FsEntry>, w: Work, env: Env)
    requires InBounds(w.log) && removed == RemovedAll(w.log, env)
    ensures |removed| == |w.log|
  {
  }

  method EvictByCount(tab: FsTable, limit: nat, env: Env, budget: nat, removed: seq<FsEntry>, ghost w: Work)
    returns (out: seq<FsEntry>, ghost r: Work, stop: Stop)
    requires Agrees(tab, removed, w, env)
    modifies tab`count, tab.v
    ensures Agrees(tab, out, r, env) && tab.v == old(tab.v)
    ensures ByCount(w, limit, env, budget) == (r, stop)
  {
    hide RemovedAll, Drop, InBounds, PickVictim;
    out, r, stop := removed, w, Done;
    while tab.count > limit
      invariant Agrees(tab, out, r, env) && tab.v == old(tab.v)
      invariant ByCount(w, limit, env, budget) == ByCount(r, limit, env, budget)
      decreases tab.count
    {
      SameLength(out, r, env);
      if |out| >= budget {
        stop := More;
        return;
      }
      var at := FindVictim(tab, env.acked);
      if at == tab.count {
        stop := Stuck;
        return;
      }
      out, r := EvictAt(tab, at, env, out, r, Count);
    }
  }

  method EvictByTierA(tab: FsTable, env: Env, budget: nat, removed: seq<FsEntry>, ghost w: Work)
    returns (out: seq<FsEntry>, ghost r: Work, more: bool)
    requires Agrees(tab, removed, w, env)
    modifies tab`count, tab.v
    ensures Agrees(tab, out, r, env) && tab.v == old(tab.v)
    ensures ByTierA(w, env, budget) == (r, if more then More else Done)
  {
    hide RemovedAll, Drop, InBounds, PickTierAVictim, TierABytes;
    out, r, more := removed, w, false;
    while true
      invariant Agrees(tab, out, r, env) && tab.v == old(tab.v)
      invariant ByTierA(w, env, budget) == ByTierA(r, env, budget)
      decreases tab.count
    {
      SameLength(out, r, env);
      var bytes := SumTierA(tab);
      if bytes <= env.tierACap { return; }
      if |out| >= budget {
        more := true;
        return;
      }
      var at := FindTierAVictim(tab, env.acked);
      if at == tab.count { return; }
      out, r := EvictAt(tab, at, env, out, r, TierAShare);
    }
  }

  method EvictByUsed(tab: FsTable, env: Env, budget: nat, removed: seq<FsEntry>, ghost w: Work)
    returns (out: seq<FsEntry>, ghost r: Work, stop: Stop)
    requires Agrees(tab, removed, w, env)
    modifies tab`count, tab.v
    ensures Agrees(tab, out, r, env) && tab.v == old(tab.v)
    ensures ByUsed(w, env, budget) == (r, stop)
  {
    hide RemovedAll, Drop, InBounds, PickVictim;
    out, r, stop := removed, w, Done;
    while env.used(out) > env.usedLimit
      invariant Agrees(tab, out, r, env) && tab.v == old(tab.v)
      invariant ByUsed(w, env, budget) == ByUsed(r, env, budget)
      decreases tab.count
    {
      SameLength(out, r, env);
      if |out| >= budget {
        stop := More;
        return;
      }
      var at := FindVictim(tab, env.acked);
      if at == tab.count {
        stop := Stuck;
        return;
      }
      out, r := EvictAt(tab, at, env, out, r, Used);
    }
  }

  /** fsEnforceRetention: what was handed to remove, in order, and how the call
      ended. */
  method EnforceRetention(tab: FsTable, env: Env, reserve: nat, budget: nat)
    returns (removed: seq<FsEntry>, ghost log: seq<Eviction>, more: bool, stuck: bool)
    requires tab.Valid()
    modifies tab`count, tab.v
    ensures tab.Valid() && tab.v == old(tab.v)
    ensures Outcome(tab.Contents(), log, more, stuck) == Enforce(old(tab.Contents()), env, reserve, budget)
    ensures InBounds(log) && removed == RemovedAll(log, env)
  {
    hide RemovedAll, Leftovers, ByCount, ByTierA, ByUsed, InBounds;
    ghost var w := Work(tab.Contents(), []);
    NoneRemoved(w, env);
    removed, stuck := [], false;
    removed, w, more := EvictLeftovers(tab, env, budget, removed, w);
    log := w.log;
    if more { return; }
    var limit := if env.maxFiles > reserve then env.maxFiles - reserve else 0;
    var stop;
    removed, w, stop := EvictByCount(tab, limit, env, budget, removed, w);
    log, more := w.log, stop == More;
    if more { return; }
    stuck := stop == Stuck;
    removed, w, more := EvictByTierA(tab, env, budget, removed, w);
    log := w.log;
    if more { return; }
    removed, w, stop := EvictByUsed(tab, env, budget, removed, w);
    log, more := w.log, stop == More;
    stuck := stuck || stop == Stuck;
  }

  lemma NoneRemoved(w: Work, env: Env)
    requires w.log == []
    ensures InBounds(w.log) && RemovedAll(w.log, env) == []
  {
  }
}
