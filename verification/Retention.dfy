/** The four-phase eviction of fsindex.cpp: acked crash leftovers, the file
    count, the Tier A share, the bytes in use; at most `budget` files a call. */
module Retention {
  import opened Words
  import opened FsIndex

  datatype Phase = Leftover | Count | TierAShare | Used

  /** One eviction: the table it was made from, the position, the reason. */
  datatype Eviction = Eviction(before: seq<FsEntry>, at: nat, phase: Phase)

  /** What a call is given: limits, the hub's watermark, the sizes that
      hydration would read, and the bytes in use after some removals. */
  datatype Env = Env(acked: i32, maxFiles: u32, tierACap: u32, usedLimit: u32,
                     diskBytes: u32 -> u32, used: seq<FsEntry> -> nat)

  datatype Work = Work(t: seq<FsEntry>, log: seq<Eviction>)

  datatype Stop = Done | More | Stuck

  datatype Outcome = Outcome(t: seq<FsEntry>, log: seq<Eviction>, more: bool, stuck: bool)

  // ---- choices -----------------------------------------------------------

  predicate IsAcked(e: FsEntry, acked: i32) { Signed(e.index) <= acked }

  /** The first entry of t[..n] that may go and satisfies want, or |t|. */
  predicate IsFirst(t: seq<FsEntry>, want: FsEntry -> bool, at: nat) {
    at <= |t|
    && (forall i :: 0 <= i < at ==> t[i].active || !want(t[i]))
    && (at < |t| ==> !t[at].active && want(t[at]))
  }

  function FirstFrom(t: seq<FsEntry>, want: FsEntry -> bool, i: nat): (at: nat)
    requires i <= |t|
    ensures i <= at <= |t|
    ensures forall k :: i <= k < at ==> t[k].active || !want(t[k])
    ensures at < |t| ==> !t[at].active && want(t[at])
    decreases |t| - i
  {
    if i == |t| || (!t[i].active && want(t[i])) then i else FirstFrom(t, want, i + 1)
  }

  function First(t: seq<FsEntry>, want: FsEntry -> bool): (at: nat)
    ensures IsFirst(t, want, at)
  {
    FirstFrom(t, want, 0)
  }

  function AckedOnly(acked: i32): FsEntry -> bool { (e: FsEntry) => IsAcked(e, acked) }

  function OfTier(tier: Tier): FsEntry -> bool { (e: FsEntry) => TierOf(e.kind) == tier }

  function TierAWith(acked: i32, wanted: bool): FsEntry -> bool {
    (e: FsEntry) => TierOf(e.kind) == TierA && IsAcked(e, acked) == wanted
  }

  /** fsPickVictim: acked first, then Tier A, B, C. */
  function PickVictim(t: seq<FsEntry>, acked: i32): (at: nat)
    ensures at <= |t|
  {
    var a := First(t, AckedOnly(acked));
    if a < |t| then a
    else
      var b := First(t, OfTier(TierA));
      if b < |t| then b
      else
        var c := First(t, OfTier(TierB));
        if c < |t| then c else First(t, OfTier(TierC))
  }

  /** fsPickTierAVictim: acked Tier A first. */
  function PickTierAVictim(t: seq<FsEntry>, acked: i32): (at: nat)
    ensures at <= |t|
  {
    var a := First(t, TierAWith(acked, true));
    if a < |t| then a else First(t, TierAWith(acked, false))
  }

  /** Hydrated Tier A bytes, before the uint32_t sum wraps. */
  function TierASum(t: seq<FsEntry>): nat {
    if t == [] then 0
    else TierASum(t[..|t| - 1]) + var e := t[|t| - 1]; if e.hydrated && TierOf(e.kind) == TierA then e.bytes else 0
  }

  /** fsTierABytes. */
  function TierABytes(t: seq<FsEntry>): u32 { Wrap(TierASum(t)) }

  /** Raw and change logs share the Tier A part of the partition. */
  predicate RawOrChanges(e: FsEntry) { e.kind == RawKind || e.kind == ChangesKind }

  /** The bytes of the raw and change logs whose size is known. */
  function Share(t: seq<FsEntry>): nat {
    if t == [] then 0 else (if t[0].hydrated && RawOrChanges(t[0]) then t[0].bytes else 0) + Share(t[1..])
  }

  /** All the bytes of raw and change logs on disk, known or not. */
  function DiskShare(t: seq<FsEntry>, disk: u32 -> u32): nat {
    if t == [] then 0
    else
      (if !RawOrChanges(t[0]) then 0 else if t[0].hydrated then t[0].bytes else disk(t[0].index))
      + DiskShare(t[1..], disk)
  }

  /** What remove is given: the entry, its size read if it was not known. */
  function Removed(ev: Eviction, env: Env): FsEntry
    requires ev.at < |ev.before|
  {
    var e := ev.before[ev.at];
    if e.hydrated then e else e.(bytes := env.diskBytes(e.index), hydrated := true)
  }

  predicate InBounds(log: seq<Eviction>) { forall k :: 0 <= k < |log| ==> log[k].at < |log[k].before| }

  function RemovedAll(log: seq<Eviction>, env: Env): (s: seq<FsEntry>)
    requires InBounds(log)
    ensures |s| == |log|
  {
    seq(|log|, k requires 0 <= k < |log| => Removed(log[k], env))
  }

  // ---- the phases --------------------------------------------------------

  function Evict(w: Work, at: nat, phase: Phase): (r: Work)
    requires at < |w.t|
    ensures InBounds(w.log) ==> InBounds(r.log)
  {
    Work(Drop(w.t, at), w.log + [Eviction(w.t, at, phase)])
  }

  predicate IsLeftover(e: FsEntry, acked: i32) { !e.closed && !e.active && IsAcked(e, acked) }

  function Leftovers(w: Work, i: nat, env: Env, budget: nat): (r: (Work, Stop))
    ensures InBounds(w.log) ==> InBounds(r.0.log)
    decreases |w.t| - i
  {
    if i >= |w.t| then (w, Done)
    else if !IsLeftover(w.t[i], env.acked) then Leftovers(w, i + 1, env, budget)
    else if |w.log| >= budget then (w, More)
    else Leftovers(Evict(w, i, Leftover), i, env, budget)
  }

  function ByCount(w: Work, limit: nat, env: Env, budget: nat): (r: (Work, Stop))
    ensures InBounds(w.log) ==> InBounds(r.0.log)
    decreases |w.t|
  {
    if |w.t| <= limit then (w, Done)
    else if |w.log| >= budget then (w, More)
    else
      var at := PickVictim(w.t, env.acked);
      if at == |w.t| then (w, Stuck) else ByCount(Evict(w, at, Count), limit, env, budget)
  }

  function ByTierA(w: Work, env: Env, budget: nat): (r: (Work, Stop))
    ensures InBounds(w.log) ==> InBounds(r.0.log)
    decreases |w.t|
  {
    if TierABytes(w.t) <= env.tierACap then (w, Done)
    else if |w.log| >= budget then (w, More)
    else
      var at := PickTierAVictim(w.t, env.acked);
      if at == |w.t| then (w, Done) else ByTierA(Evict(w, at, TierAShare), env, budget)
  }

  function ByUsed(w: Work, env: Env, budget: nat): (Work, Stop)
    requires InBounds(w.log)
    decreases |w.t|
  {
    if env.used(RemovedAll(w.log, env)) <= env.usedLimit then (w, Done)
    else if |w.log| >= budget then (w, More)
    else
      var at := PickVictim(w.t, env.acked);
      if at == |w.t| then (w, Stuck) else ByUsed(Evict(w, at, Used), env, budget)
  }

  function CountLimit(env: Env, reserve: nat): nat {
    if env.maxFiles > reserve then env.maxFiles - reserve else 0
  }

  /** fsEnforceRetention. */
  function Enforce(t: seq<FsEntry>, env: Env, reserve: nat, budget: nat): Outcome {
    var (w0, s0) := Leftovers(Work(t, []), 0, env, budget);
    if s0 == More then Outcome(w0.t, w0.log, true, false)
    else
      var (w1, s1) := ByCount(w0, CountLimit(env, reserve), env, budget);
      if s1 == More then Outcome(w1.t, w1.log, true, false)
      else
        var (w2, s2) := ByTierA(w1, env, budget);
        if s2 == More then Outcome(w2.t, w2.log, true, s1 == Stuck)
        else
          var (w3, s3) := ByUsed(w2, env, budget);
          Outcome(w3.t, w3.log, s3 == More, s1 == Stuck || s3 == Stuck)
  }

  // ---- what an eviction must be ------------------------------------------

  /** The evictions lead from t to t', each dropping one entry. */
  predicate Chain(t: seq<FsEntry>, log: seq<Eviction>, t': seq<FsEntry>)
    decreases |log|
  {
    if log == [] then t == t'
    else log[0].before == t && log[0].at < |t| && Chain(Drop(t, log[0].at), log[1..], t')
  }

  predicate AnyEvictable(t: seq<FsEntry>, want: FsEntry -> bool) {
    exists i :: 0 <= i < |t| && !t[i].active && want(t[i])
  }

  /** Raw and change logs go before snapshots, snapshots before bookends. */
  function KindRank(k: Kind): nat {
    match k
    case RawKind => 0
    case ChangesKind => 0
    case SnapshotKind => 1
    case BookendKind => 2
  }

  /** The deletion order of the protocol, and never an active file. */
  predicate Legit(ev: Eviction, env: Env) {
    && ev.at < |ev.before|
    && var e := ev.before[ev.at];
    && !e.active
    && var before := ev.before;
    && match ev.phase
       case Leftover => !e.closed && Signed(e.index) <= env.acked
       case TierAShare =>
         && RawOrChanges(e)
         && DiskShare(before, env.diskBytes) > env.tierACap
         && (Signed(e.index) > env.acked ==>
               forall i :: 0 <= i < |before| && !before[i].active && RawOrChanges(before[i]) ==>
                 Signed(before[i].index) > env.acked)
         && (forall i :: 0 <= i < |before| && !before[i].active && RawOrChanges(before[i])
                         && (Signed(before[i].index) <= env.acked <==> Signed(e.index) <= env.acked)
               ==> e.index <= before[i].index)
       case _ =>
         if Signed(e.index) <= env.acked then
           forall i :: 0 <= i < |before| && !before[i].active && Signed(before[i].index) <= env.acked ==>
             e.index <= before[i].index
         else
           forall i :: 0 <= i < |before| && !before[i].active ==>
             && Signed(before[i].index) > env.acked
             && (KindRank(e.kind) < KindRank(before[i].kind)
                 || (KindRank(e.kind) == KindRank(before[i].kind) && e.index <= before[i].index))
  }

  predicate AllLegit(log: seq<Eviction>, env: Env) { forall k :: 0 <= k < |log| ==> Legit(log[k], env) }

  /** The limit that an eviction answers was exceeded when it was made. */
  predicate Needed(log: seq<Eviction>, env: Env, limit: nat) {
    forall k :: 0 <= k < |log| ==>
      && (log[k].phase == Count ==> |log[k].before| > limit)
      && (log[k].phase == Used ==> InBounds(log[..k]) && env.used(RemovedAll(log[..k], env)) > env.usedLimit)
  }

  /** What every phase keeps, starting from t; limit is the count limit. */
  predicate Progress(t: seq<FsEntry>, w: Work, env: Env, limit: nat, budget: nat) {
    Chain(t, w.log, w.t) && AllLegit(w.log, env) && Needed(w.log, env, limit) && |w.log| <= budget && Ordered(w.t)
  }

  lemma {:induction false} ChainExtends(t: seq<FsEntry>, log: seq<Eviction>, t': seq<FsEntry>, ev: Eviction)
    requires Chain(t, log, t') && ev.before == t' && ev.at < |t'|
    ensures Chain(t, log + [ev], Drop(t', ev.at))
    decreases |log|
  {
    if log == [] {
      assert [ev][1..] == [];
    } else {
      assert (log + [ev])[1..] == log[1..] + [ev];
      ChainExtends(Drop(t, log[0].at), log[1..], t', ev);
    }
  }

  lemma DropOrdered(t: seq<FsEntry>, at: nat)
    requires Ordered(t) && at < |t|
    ensures Ordered(Drop(t, at))
  {
  }

  /** One more legitimate eviction keeps what every phase keeps. */
  lemma EvictKeeps(t: seq<FsEntry>, w: Work, at: nat, phase: Phase, env: Env, limit: nat, budget: nat)
    requires Progress(t, w, env, limit, budget) && at < |w.t| && |w.log| < budget
    requires Legit(Eviction(w.t, at, phase), env)
    requires phase == Count ==> |w.t| > limit
    requires phase == Used ==> InBounds(w.log) && env.used(RemovedAll(w.log, env)) > env.usedLimit
    ensures Progress(t, Evict(w, at, phase), env, limit, budget)
  {
    hide Legit, Drop, Ordered, RemovedAll;
    ChainExtends(t, w.log, w.t, Eviction(w.t, at, phase));
    DropOrdered(w.t, at);
    var log := w.log + [Eviction(w.t, at, phase)];
    forall k | 0 <= k < |log| && log[k].phase == Used
      ensures InBounds(log[..k]) && env.used(RemovedAll(log[..k], env)) > env.usedLimit
    {
      assert log[..k] == w.log[..k];
      if k == |w.log| { assert w.log[..k] == w.log; }
    }
  }

  lemma FirstIsOldest(t: seq<FsEntry>, want: FsEntry -> bool, at: nat)
    requires Ordered(t) && IsFirst(t, want, at) && at < |t|
    ensures forall i :: 0 <= i < |t| && !t[i].active && want(t[i]) ==> t[at].index <= t[i].index
  {
  }

  lemma NoneFound(t: seq<FsEntry>, want: FsEntry -> bool)
    requires First(t, want) == |t|
    ensures !AnyEvictable(t, want)
  {
  }

  lemma AckedLegit(t: seq<FsEntry>, env: Env, phase: Phase)
    requires Ordered(t) && First(t, AckedOnly(env.acked)) < |t| && (phase == Count || phase == Used)
    ensures Legit(Eviction(t, First(t, AckedOnly(env.acked)), phase), env)
  {
    hide Ordered;
    FirstIsOldest(t, AckedOnly(env.acked), First(t, AckedOnly(env.acked)));
  }

  /** at is the first of its tier, and no lower tier has one to give. */
  lemma TierLegit(t: seq<FsEntry>, env: Env, phase: Phase, tier: Tier)
    requires Ordered(t) && First(t, OfTier(tier)) < |t| && (phase == Count || phase == Used)
    requires First(t, AckedOnly(env.acked)) == |t|
    requires tier != TierA ==> First(t, OfTier(TierA)) == |t|
    requires tier == TierC ==> First(t, OfTier(TierB)) == |t|
    ensures Legit(Eviction(t, First(t, OfTier(tier)), phase), env)
  {
    hide Ordered, First;
    var at := First(t, OfTier(tier));
    NoneFound(t, AckedOnly(env.acked));
    FirstIs(t, OfTier(tier));
    FirstIsOldest(t, OfTier(tier), at);
    forall i | 0 <= i < |t| && !t[i].active
      ensures Signed(t[i].index) > env.acked
      ensures KindRank(t[at].kind) < KindRank(t[i].kind)
              || (KindRank(t[at].kind) == KindRank(t[i].kind) && t[at].index <= t[i].index)
    {
      assert !AckedOnly(env.acked)(t[i]) && OfTier(tier)(t[at]) && OfTier(TierOf(t[i].kind))(t[i]);
      if tier != TierA { NoneFound(t, OfTier(TierA)); }
      if tier == TierC { NoneFound(t, OfTier(TierB)); }
    }
  }

  lemma FirstIs(t: seq<FsEntry>, want: FsEntry -> bool)
    ensures IsFirst(t, want, First(t, want))
  {
  }

  /** The picker follows the deletion order. */
  lemma VictimLegit(t: seq<FsEntry>, env: Env, phase: Phase)
    requires Ordered(t) && PickVictim(t, env.acked) < |t| && (phase == Count || phase == Used)
    ensures Legit(Eviction(t, PickVictim(t, env.acked), phase), env)
  {
    hide Ordered, Legit, First;
    if First(t, AckedOnly(env.acked)) < |t| {
      AckedLegit(t, env, phase);
    } else if First(t, OfTier(TierA)) < |t| {
      TierLegit(t, env, phase, TierA);
    } else if First(t, OfTier(TierB)) < |t| {
      TierLegit(t, env, phase, TierB);
    } else {
      TierLegit(t, env, phase, TierC);
    }
  }

  /** The picker finds nothing only when every entry is active. */
  lemma StuckMeansActive(t: seq<FsEntry>, acked: i32)
    requires PickVictim(t, acked) == |t|
    ensures forall i :: 0 <= i < |t| ==> t[i].active
  {
    NoneFound(t, OfTier(TierA));
    NoneFound(t, OfTier(TierB));
    NoneFound(t, OfTier(TierC));
    forall i | 0 <= i < |t| ensures t[i].active {
      var tier := TierOf(t[i].kind);
      assert !AnyEvictable(t, OfTier(tier)) && OfTier(tier)(t[i]);
    }
  }

  lemma {:induction false} ShareJoin(a: seq<FsEntry>, b: seq<FsEntry>)
    ensures Share(a + b) == Share(a) + Share(b)
  {
    if a == [] {
      assert a + b == b;
    } else {
      ShareJoin(a[1..], b);
      assert (a + b)[1..] == a[1..] + b;
    }
  }

  lemma ShareOne(e: FsEntry)
    ensures Share([e]) == if e.hydrated && RawOrChanges(e) then e.bytes else 0
  {
    assert [e][1..] == [];
  }

  /** What fsTierABytes adds up: the raw and change logs of known size. */
  lemma {:induction false} SumIsShare(t: seq<FsEntry>)
    ensures TierASum(t) == Share(t)
  {
    if t != [] {
      var n := |t| - 1;
      SumIsShare(t[..n]);
      ShareJoin(t[..n], [t[n]]);
      ShareOne(t[n]);
      assert t == t[..n] + [t[n]];
    }
  }

  lemma {:induction false} ShareOnDisk(t: seq<FsEntry>, disk: u32 -> u32)
    ensures Share(t) <= DiskShare(t, disk)
    ensures (forall e :: e in t ==> e.hydrated) ==> Share(t) == DiskShare(t, disk)
  {
    if t != [] {
      ShareOnDisk(t[1..], disk);
      assert t[0] in t && forall e :: e in t[1..] ==> e in t;
    }
  }

  lemma TierAVictimLegit(t: seq<FsEntry>, env: Env)
    requires Ordered(t) && TierABytes(t) > env.tierACap && PickTierAVictim(t, env.acked) < |t|
    ensures Legit(Eviction(t, PickTierAVictim(t, env.acked), TierAShare), env)
  {
    hide Ordered, First;
    SumIsShare(t);
    ShareOnDisk(t, env.diskBytes);
    var yes, no := TierAWith(env.acked, true), TierAWith(env.acked, false);
    FirstIs(t, yes);
    FirstIs(t, no);
    var at := PickTierAVictim(t, env.acked);
    if First(t, yes) < |t| {
      FirstIsOldest(t, yes, at);
      AckedFirst(t, env, at);
    } else {
      NoneFound(t, yes);
      FirstIsOldest(t, no, at);
      UnackedNext(t, env, at);
    }
  }

  lemma AckedFirst(t: seq<FsEntry>, env: Env, at: nat)
    requires at < |t| && !t[at].active && TierAWith(env.acked, true)(t[at])
    requires DiskShare(t, env.diskBytes) > env.tierACap
    requires forall i :: 0 <= i < |t| && !t[i].active && TierAWith(env.acked, true)(t[i]) ==> t[at].index <= t[i].index
    ensures Legit(Eviction(t, at, TierAShare), env)
  {
    hide DiskShare;
    forall i | 0 <= i < |t| && !t[i].active && RawOrChanges(t[i]) && Signed(t[i].index) <= env.acked
      ensures t[at].index <= t[i].index
    {
      assert TierAWith(env.acked, true)(t[i]);
    }
  }

  lemma UnackedNext(t: seq<FsEntry>, env: Env, at: nat)
    requires at < |t| && !t[at].active && TierAWith(env.acked, false)(t[at])
    requires DiskShare(t, env.diskBytes) > env.tierACap && !AnyEvictable(t, TierAWith(env.acked, true))
    requires forall i :: 0 <= i < |t| && !t[i].active && TierAWith(env.acked, false)(t[i]) ==> t[at].index <= t[i].index
    ensures Legit(Eviction(t, at, TierAShare), env)
  {
    hide DiskShare;
    forall i | 0 <= i < |t| && !t[i].active && RawOrChanges(t[i])
      ensures Signed(t[i].index) > env.acked && t[at].index <= t[i].index
    {
      assert !TierAWith(env.acked, true)(t[i]) && TierAWith(env.acked, false)(t[i]);
    }
  }

  // ---- the phases keep the contract --------------------------------------

  lemma {:induction false} LeftoversKeep(t: seq<FsEntry>, w: Work, i: nat, env: Env, limit: nat, budget: nat)
    requires Progress(t, w, env, limit, budget) && i <= |w.t|
    requires forall k :: 0 <= k < i ==> !IsLeftover(w.t[k], env.acked)
    ensures var (r, stop) := Leftovers(w, i, env, budget);
            && Progress(t, r, env, limit, budget)
            && (stop == Done ==> NoLeftovers(r.t, env.acked))
            && (stop == More ==> |r.log| == budget) && stop != Stuck
    decreases |w.t| - i
  {
    hide Progress, Legit;
    if i < |w.t| {
      if !IsLeftover(w.t[i], env.acked) {
        LeftoversKeep(t, w, i + 1, env, limit, budget);
      } else if |w.log| < budget {
        LeftoverLegit(w.t, i, env);
        EvictKeeps(t, w, i, Leftover, env, limit, budget);
        LeftoversKeep(t, Evict(w, i, Leftover), i, env, limit, budget);
      } else {
        AtBudget(t, w, env, limit, budget);
      }
    }
  }

  lemma AtBudget(t: seq<FsEntry>, w: Work, env: Env, limit: nat, budget: nat)
    requires Progress(t, w, env, limit, budget)
    ensures |w.log| <= budget && Ordered(w.t) && InBounds(w.log)
  {
    forall k | 0 <= k < |w.log| ensures w.log[k].at < |w.log[k].before| { assert Legit(w.log[k], env); }
  }

  /** No file of an earlier boot that the hub has is left. */
  predicate NoLeftovers(t: seq<FsEntry>, acked: i32) {
    forall e :: e in t && !e.closed && !e.active ==> Signed(e.index) > acked
  }

  lemma LeftoverLegit(t: seq<FsEntry>, at: nat, env: Env)
    requires at < |t| && IsLeftover(t[at], env.acked)
    ensures Legit(Eviction(t, at, Leftover), env)
  {
  }

  /** Dropping entries never brings anything in. */
  predicate Within(r: seq<FsEntry>, t: seq<FsEntry>) { forall e :: e in r ==> e in t }

  lemma {:induction false} ByCountKeeps(t: seq<FsEntry>, w: Work, env: Env, limit: nat, budget: nat)
    requires Progress(t, w, env, limit, budget)
    ensures var (r, stop) := ByCount(w, limit, env, budget);
            && Progress(t, r, env, limit, budget) && Within(r.t, w.t) && |r.t| <= |w.t|
            && (stop == Done ==> |r.t| <= limit)
            && (stop == More ==> |r.log| == budget && |r.t| > limit)
            && (stop == Stuck ==> forall i :: 0 <= i < |r.t| ==> r.t[i].active)
    decreases |w.t|
  {
    hide Progress, Legit, PickVictim;
    AtBudget(t, w, env, limit, budget);
    if |w.t| > limit && |w.log| < budget {
      var at := PickVictim(w.t, env.acked);
      if at == |w.t| {
        StuckMeansActive(w.t, env.acked);
      } else {
        VictimLegit(w.t, env, Count);
        EvictKeeps(t, w, at, Count, env, limit, budget);
        ByCountKeeps(t, Evict(w, at, Count), env, limit, budget);
      }
    }
  }

  predicate TierAAllActive(t: seq<FsEntry>) {
    forall i :: 0 <= i < |t| && RawOrChanges(t[i]) ==> t[i].active
  }

  lemma TierAStuck(t: seq<FsEntry>, acked: i32)
    requires PickTierAVictim(t, acked) == |t|
    ensures TierAAllActive(t)
  {
    NoneFound(t, TierAWith(acked, true));
    NoneFound(t, TierAWith(acked, false));
    forall i | 0 <= i < |t| && RawOrChanges(t[i]) ensures t[i].active {
      var wanted := IsAcked(t[i], acked);
      assert !AnyEvictable(t, TierAWith(acked, wanted)) && TierAWith(acked, wanted)(t[i]);
    }
  }

  lemma {:induction false} ByTierAKeeps(t: seq<FsEntry>, w: Work, env: Env, limit: nat, budget: nat)
    requires Progress(t, w, env, limit, budget)
    ensures var (r, stop) := ByTierA(w, env, budget);
            && Progress(t, r, env, limit, budget) && Within(r.t, w.t) && |r.t| <= |w.t|
            && (stop == Done ==> Share(r.t) % 0x1_0000_0000 <= env.tierACap || TierAAllActive(r.t))
            && (stop == More ==> |r.log| == budget) && stop != Stuck
    decreases |w.t|
  {
    hide Progress, Legit, PickTierAVictim, TierASum;
    AtBudget(t, w, env, limit, budget);
    SumIsShare(w.t);
    if TierABytes(w.t) > env.tierACap && |w.log| < budget {
      var at := PickTierAVictim(w.t, env.acked);
      if at == |w.t| {
        TierAStuck(w.t, env.acked);
      } else {
        TierAVictimLegit(w.t, env);
        EvictKeeps(t, w, at, TierAShare, env, limit, budget);
        ByTierAKeeps(t, Evict(w, at, TierAShare), env, limit, budget);
      }
    }
  }

  lemma {:induction false} ByUsedKeeps(t: seq<FsEntry>, w: Work, env: Env, limit: nat, budget: nat)
    requires Progress(t, w, env, limit, budget) && InBounds(w.log)
    ensures var (r, stop) := ByUsed(w, env, budget);
            && Progress(t, r, env, limit, budget) && InBounds(r.log) && Within(r.t, w.t) && |r.t| <= |w.t|
            && Share(r.t) <= Share(w.t) && (TierAAllActive(w.t) ==> TierAAllActive(r.t))
            && (stop == Done ==> env.used(RemovedAll(r.log, env)) <= env.usedLimit)
            && (stop == More ==> |r.log| == budget)
            && (stop == Stuck ==> forall i :: 0 <= i < |r.t| ==> r.t[i].active)
    decreases |w.t|
  {
    hide Progress, Legit, PickVictim, Share;
    AtBudget(t, w, env, limit, budget);
    if env.used(RemovedAll(w.log, env)) > env.usedLimit && |w.log| < budget {
      var at := PickVictim(w.t, env.acked);
      if at == |w.t| {
        StuckMeansActive(w.t, env.acked);
      } else {
        VictimLegit(w.t, env, Used);
        EvictKeeps(t, w, at, Used, env, limit, budget);
        AtBudget(t, Evict(w, at, Used), env, limit, budget);
        DropShare(w.t, at);
        ByUsedKeeps(t, Evict(w, at, Used), env, limit, budget);
      }
    }
  }

  /** An eviction takes its bytes off the share, and no others. */
  lemma DropShare(t: seq<FsEntry>, at: nat)
    requires at < |t|
    ensures Share(Drop(t, at)) == Share(t) - if t[at].hydrated && RawOrChanges(t[at]) then t[at].bytes else 0
  {
    hide Share, RawOrChanges;
    ShareJoin(t[..at], t[at + 1..]);
    ShareJoin(t[..at], [t[at]] + t[at + 1..]);
    ShareJoin([t[at]], t[at + 1..]);
    ShareOne(t[at]);
    assert t == t[..at] + ([t[at]] + t[at + 1..]);
  }

  // ---- the contract ------------------------------------------------------

  /** What a call promises, on any ordered table whatever its limits. */
  ghost predicate Contract(t: seq<FsEntry>, env: Env, reserve: nat, budget: nat, o: Outcome) {
    && Chain(t, o.log, o.t) && AllLegit(o.log, env) && InBounds(o.log)
    && Needed(o.log, env, CountLimit(env, reserve))
    && |o.log| <= budget && Ordered(o.t)
    && (o.more ==> |o.log| == budget)
    && (!o.more && !o.stuck ==>
          && |o.t| <= CountLimit(env, reserve)
          && env.used(RemovedAll(o.log, env)) <= env.usedLimit)
    && (!o.more ==>
          && NoLeftovers(o.t, env.acked)
          && (Share(t) < 0x1_0000_0000 ==> Share(o.t) <= env.tierACap || TierAAllActive(o.t)))
    && (o.stuck && !o.more ==> forall i :: 0 <= i < |o.t| ==> o.t[i].active)
  }

  /** The contract holds of every call. Only where the Tier A bytes of the
      index would not fit 32 bits is nothing said about the Tier A share. */
  lemma EnforceKeepsContract(t: seq<FsEntry>, env: Env, reserve: nat, budget: nat)
    requires Ordered(t)
    ensures Contract(t, env, reserve, budget, Enforce(t, env, reserve, budget))
  {
    hide Progress, Contract, Chain, InBounds, RemovedAll, Ordered, Share, NoLeftovers, Leftovers, ByCount;
    var limit := CountLimit(env, reserve);
    var start := Work(t, []);
    StartProgress(t, env, limit, budget);
    LeftoversKeep(t, start, 0, env, limit, budget);
    var (w0, s0) := Leftovers(start, 0, env, budget);
    if s0 == More {
      Unfinished(t, w0, env, reserve, budget, false);
    } else {
      ByCountKeeps(t, w0, env, limit, budget);
      var (w1, s1) := ByCount(w0, limit, env, budget);
      AtBudget(t, w1, env, limit, budget);
      if s1 == More {
        Unfinished(t, w1, env, reserve, budget, false);
      } else {
        LastPhases(t, w0, w1, s1, env, reserve, budget);
      }
    }
  }

  /** The budget is spent. */
  lemma Unfinished(t: seq<FsEntry>, w: Work, env: Env, reserve: nat, budget: nat, stuck: bool)
    requires Progress(t, w, env, CountLimit(env, reserve), budget) && |w.log| == budget
    ensures Contract(t, env, reserve, budget, Outcome(w.t, w.log, true, stuck))
  {
    hide Progress, Chain, AllLegit, Needed, InBounds, Ordered;
    Kept(t, w, env, CountLimit(env, reserve), budget);
  }

  /** What the last two phases add, after w1 and s1 of the count phase. */
  lemma LastPhases(t: seq<FsEntry>, w0: Work, w1: Work, s1: Stop, env: Env, reserve: nat, budget: nat)
    requires Progress(t, w1, env, CountLimit(env, reserve), budget) && Within(w1.t, w0.t)
    requires NoLeftovers(w0.t, env.acked)
    requires s1 == Done ==> |w1.t| <= CountLimit(env, reserve)
    requires s1 == Stuck ==> forall i :: 0 <= i < |w1.t| ==> w1.t[i].active
    requires s1 != More && InBounds(w1.log)
    ensures var (w2, s2) := ByTierA(w1, env, budget);
            var (w3, s3) := ByUsed(w2, env, budget);
            Contract(t, env, reserve, budget,
                     if s2 == More then Outcome(w2.t, w2.log, true, s1 == Stuck)
                     else Outcome(w3.t, w3.log, s3 == More, s1 == Stuck || s3 == Stuck))
  {
    hide Progress, AllLegit, Needed, Chain, ByTierA, ByUsed, InBounds, RemovedAll, Ordered, Share, NoLeftovers;
    var limit := CountLimit(env, reserve);
    ByTierAKeeps(t, w1, env, limit, budget);
    var (w2, s2) := ByTierA(w1, env, budget);
    Kept(t, w2, env, limit, budget);
    if s2 != More {
      ByUsedKeeps(t, w2, env, limit, budget);
      var (w3, s3) := ByUsed(w2, env, budget);
      Kept(t, w3, env, limit, budget);
      StillNone(w0.t, w3.t, env.acked);
      if s1 == Stuck { StillActive(w1.t, w3.t); }
    }
  }

  lemma StillNone(t: seq<FsEntry>, r: seq<FsEntry>, acked: i32)
    requires Within(r, t) && NoLeftovers(t, acked)
    ensures NoLeftovers(r, acked)
  {
  }

  lemma StartProgress(t: seq<FsEntry>, env: Env, limit: nat, budget: nat)
    requires Ordered(t)
    ensures Progress(t, Work(t, []), env, limit, budget)
  {
  }

  lemma StillActive(t: seq<FsEntry>, r: seq<FsEntry>)
    requires Within(r, t) && forall i :: 0 <= i < |t| ==> t[i].active
    ensures forall i :: 0 <= i < |r| ==> r[i].active
  {
    forall i | 0 <= i < |r| ensures r[i].active { assert r[i] in t; }
  }

  lemma Kept(t: seq<FsEntry>, w: Work, env: Env, limit: nat, budget: nat)
    requires Progress(t, w, env, limit, budget)
    ensures Chain(t, w.log, w.t) && AllLegit(w.log, env) && InBounds(w.log) && |w.log| <= budget && Ordered(w.t)
    ensures Needed(w.log, env, limit)
    ensures Share(w.t) <= Share(t) && (Share(t) < U32 ==> Share(w.t) % 0x1_0000_0000 == Share(w.t))
  {
    AtBudget(t, w, env, limit, budget);
    ChainSum(t, w.log, w.t);
  }

  lemma {:induction false} ChainSum(t: seq<FsEntry>, log: seq<Eviction>, t': seq<FsEntry>)
    requires Chain(t, log, t')
    ensures Share(t') <= Share(t) && |t'| == |t| - |log| && Within(t', t)
    decreases |log|
  {
    if log != [] {
      DropShare(t, log[0].at);
      ChainSum(Drop(t, log[0].at), log[1..], t');
    }
  }

  /** The Tier A share holds on disk: with every size known and less than 2^32
      bytes in all, a finished call leaves at most the cap of raw and change
      logs, or only active ones. */
  lemma ShareEnforced(t: seq<FsEntry>, env: Env, reserve: nat, budget: nat)
    requires Ordered(t) && (forall e :: e in t ==> e.hydrated) && DiskShare(t, env.diskBytes) < 0x1_0000_0000
    requires !Enforce(t, env, reserve, budget).more
    ensures var o := Enforce(t, env, reserve, budget).t;
            || DiskShare(o, env.diskBytes) <= env.tierACap
            || forall i :: 0 <= i < |o| && RawOrChanges(o[i]) ==> o[i].active
  {
    hide Enforce, Share, DiskShare, AllLegit, Needed, Ordered, NoLeftovers, InBounds, RemovedAll;
    var o := Enforce(t, env, reserve, budget);
    EnforceKeepsContract(t, env, reserve, budget);
    ChainSum(t, o.log, o.t);
    ShareOnDisk(t, env.diskBytes);
    ShareOnDisk(o.t, env.diskBytes);
  }

  /** Where the sum wraps the share is not enforced: two raw logs of 2^31 bytes
      each stay, whatever the cap. */
  lemma WrapHidesShare(env: Env, bootId: u32)
    requires env.acked < 0 && env.maxFiles >= 2 && env.used([]) <= env.usedLimit
    ensures var a := FsEntry(0, 0x8000_0000, bootId, RawKind, 0, true, false, false, true);
            var t := [a, a.(index := 1)];
            Enforce(t, env, 0, 8) == Outcome(t, [], false, false) && Share(t) == 0x1_0000_0000
  {
    var a := FsEntry(0, 0x8000_0000, bootId, RawKind, 0, true, false, false, true);
    var t := [a, a.(index := 1)];
    ShareJoin([t[0]], [t[1]]);
    ShareOne(t[0]);
    ShareOne(t[1]);
    assert t == [t[0]] + [t[1]];
    SumIsShare(t);
    var w := Work(t, []);
    assert Leftovers(w, 2, env, 8) == (w, Done);
    assert Leftovers(w, 1, env, 8) == (w, Done);
    assert Leftovers(w, 0, env, 8) == (w, Done);
    assert RemovedAll([], env) == [];
  }

  // ---- the order of the phases -------------------------------------------

  /** log goes on from before with evictions of one phase. */
  predicate GoesOn(before: seq<Eviction>, log: seq<Eviction>, phase: Phase) {
    before <= log && forall k :: |before| <= k < |log| ==> log[k].phase == phase
  }

  lemma GoesOnOne(before: seq<Eviction>, ev: Eviction, log: seq<Eviction>)
    requires GoesOn(before + [ev], log, ev.phase)
    ensures GoesOn(before, log, ev.phase)
  {
    assert (before + [ev])[|before|] == ev;
    assert before == (before + [ev])[..|before|];
  }

  lemma {:induction false} LeftoversGoOn(w: Work, i: nat, env: Env, budget: nat)
    ensures GoesOn(w.log, Leftovers(w, i, env, budget).0.log, Leftover)
    decreases |w.t| - i
  {
    hide GoesOn;
    NothingMore(w.log, Leftover);
    if i < |w.t| {
      if !IsLeftover(w.t[i], env.acked) {
        LeftoversGoOn(w, i + 1, env, budget);
      } else if |w.log| < budget {
        LeftoversGoOn(Evict(w, i, Leftover), i, env, budget);
        GoesOnOne(w.log, Eviction(w.t, i, Leftover), Leftovers(w, i, env, budget).0.log);
      }
    }
  }

  lemma NothingMore(log: seq<Eviction>, phase: Phase)
    ensures GoesOn(log, log, phase)
  {
  }

  lemma {:induction false} ByCountGoesOn(w: Work, limit: nat, env: Env, budget: nat)
    ensures GoesOn(w.log, ByCount(w, limit, env, budget).0.log, Count)
    decreases |w.t|
  {
    hide GoesOn, PickVictim;
    NothingMore(w.log, Count);
    var at := PickVictim(w.t, env.acked);
    if |w.t| > limit && |w.log| < budget && at < |w.t| {
      ByCountGoesOn(Evict(w, at, Count), limit, env, budget);
      GoesOnOne(w.log, Eviction(w.t, at, Count), ByCount(w, limit, env, budget).0.log);
    }
  }

  lemma {:induction false} ByTierAGoesOn(w: Work, env: Env, budget: nat)
    ensures GoesOn(w.log, ByTierA(w, env, budget).0.log, TierAShare)
    decreases |w.t|
  {
    hide GoesOn, PickTierAVictim, TierABytes;
    NothingMore(w.log, TierAShare);
    var at := PickTierAVictim(w.t, env.acked);
    if TierABytes(w.t) > env.tierACap && |w.log| < budget && at < |w.t| {
      ByTierAGoesOn(Evict(w, at, TierAShare), env, budget);
      GoesOnOne(w.log, Eviction(w.t, at, TierAShare), ByTierA(w, env, budget).0.log);
    }
  }

  lemma {:induction false} ByUsedGoesOn(w: Work, env: Env, budget: nat)
    requires InBounds(w.log)
    ensures GoesOn(w.log, ByUsed(w, env, budget).0.log, Used)
    decreases |w.t|
  {
    hide GoesOn, PickVictim, RemovedAll;
    NothingMore(w.log, Used);
    var at := PickVictim(w.t, env.acked);
    if env.used(RemovedAll(w.log, env)) > env.usedLimit && |w.log| < budget && at < |w.t| {
      ByUsedGoesOn(Evict(w, at, Used), env, budget);
      GoesOnOne(w.log, Eviction(w.t, at, Used), ByUsed(w, env, budget).0.log);
    }
  }

  /** Four stretches: leftovers, then for the count, then for the Tier A share,
      then for the space in use. */
  predicate InPhases(log: seq<Eviction>, a: nat, b: nat, c: nat) {
    a <= b <= c <= |log|
    && (forall k :: 0 <= k < a ==> log[k].phase == Leftover) && (forall k :: a <= k < b ==> log[k].phase == Count)
    && (forall k :: b <= k < c ==> log[k].phase == TierAShare) && (forall k :: c <= k < |log| ==> log[k].phase == Used)
  }

  /** Acked leftovers go first, whatever the limits; the space in use comes
      last. */
  lemma PhasesInOrder(t: seq<FsEntry>, env: Env, reserve: nat, budget: nat) returns (a: nat, b: nat, c: nat)
    ensures InPhases(Enforce(t, env, reserve, budget).log, a, b, c)
  {
    hide Leftovers, ByCount, ByTierA, ByUsed, InPhases, GoesOn, InBounds;
    var (w0, s0) := Leftovers(Work(t, []), 0, env, budget);
    LeftoversGoOn(Work(t, []), 0, env, budget);
    ByCountGoesOn(w0, CountLimit(env, reserve), env, budget);
    var (w1, s1) := ByCount(w0, CountLimit(env, reserve), env, budget);
    ByTierAGoesOn(w1, env, budget);
    var (w2, s2) := ByTierA(w1, env, budget);
    Bounded(t, env, reserve, budget);
    ByUsedGoesOn(w2, env, budget);
    var (w3, s3) := ByUsed(w2, env, budget);
    Stretches(w0.log, w1.log, w2.log, w3.log);
    a := |w0.log|;
    b := if s0 == More then a else |w1.log|;
    c := if s0 == More || s1 == More then b else |w2.log|;
  }

  lemma Bounded(t: seq<FsEntry>, env: Env, reserve: nat, budget: nat)
    ensures var w0 := Leftovers(Work(t, []), 0, env, budget).0;
            var w1 := ByCount(w0, CountLimit(env, reserve), env, budget).0;
            InBounds(ByTierA(w1, env, budget).0.log)
  {
  }

  lemma Stretches(a: seq<Eviction>, b: seq<Eviction>, c: seq<Eviction>, d: seq<Eviction>)
    requires GoesOn([], a, Leftover) && GoesOn(a, b, Count) && GoesOn(b, c, TierAShare) && GoesOn(c, d, Used)
    ensures InPhases(a, |a|, |a|, |a|) && InPhases(b, |a|, |b|, |b|)
    ensures InPhases(c, |a|, |b|, |c|) && InPhases(d, |a|, |b|, |c|)
  {
  }
}
