/** The poll scheduler: one request in flight, the most overdue entry next, a
    gap between requests, back-off after a timeout. Times are uint32_t
    milliseconds that wrap. */
module PollSched {
  import opened Words
  import opened PlanContract

  /** PollPidStats; the counters wrap, misses stop at 16. */
  datatype Stats = Stats(requests: u32, replies: u32, timeouts: u32, multiframe: u32, txFailed: u32,
                         lastLatencyMs: u32, misses: u8)

  const NO_STATS := Stats(0, 0, 0, 0, 0, 0, 0)

  datatype Sched = Sched(plan: seq<Entry>, due: seq<u32>, st: seq<Stats>, inflight: int,
                         sentMs: u32, lastTxMs: u32, anyTx: bool, anyOk: bool)
  {
    predicate Ok() {
      && |plan| <= PLAN_MAX && |due| == |plan| && |st| == |plan|
      && -1 <= inflight < |plan|
      && (forall k :: 0 <= k < |plan| ==> plan[k].periodMs > 0)
    }
  }

  datatype Rx = Ignored | Reply(payload: seq<u8>) | Multiframe

  // ---- time --------------------------------------------------------------

  function Since(now: u32, t: u32): i32 { Signed(Wrap(now - t)) }

  predicate Reached(now: u32, t: u32) { Since(now, t) >= 0 }

  /** x << k without a width: x times 2 to the k. */
  function Shl(x: nat, k: nat): (r: nat)
    ensures r >= x
  {
    if k == 0 then x else 2 * Shl(x, k - 1)
  }

  /** period doubled per miss, capped at max or at the period if longer. */
  function BackoffMs(period: u32, misses: nat, max: u32): (b: u32)
    ensures period <= b <= Max(max, period)
  {
    Min(Shl(period, misses), Max(max, period))
  }

  lemma {:induction false} ShlGrows(x: nat, j: nat, k: nat)
    requires j <= k
    ensures Shl(x, j) <= Shl(x, k)
    decreases k
  {
    if j < k { ShlGrows(x, j, k - 1); }
  }

  /** The period without a miss; one more miss doubles the wait up to the cap. */
  lemma BackoffDoubles(period: u32, misses: nat, max: u32)
    ensures BackoffMs(period, 0, max) == period
    ensures BackoffMs(period, misses + 1, max) == Min(2 * BackoffMs(period, misses, max), Max(max, period))
  {
  }

  /** pollBackoffMs: the loop stops doubling once the cap is reached, so 64
      bits never overflow. */
  method PollBackoffMs(period: u32, misses: u8, max: u32) returns (b: u32)
    ensures b == BackoffMs(period, misses, max)
  {
    var cap := if max > period then max else period;
    var x: int := period;
    var k := 0;
    while k < misses && x < cap
      invariant 0 <= k <= misses && x == Shl(period, k)
      invariant 0 <= x <= 2 * cap
    {
      x := x * 2;
      k := k + 1;
    }
    ShlGrows(period, k, misses);
    b := if x > cap then cap else x;
  }

  // ---- the operations as functions ---------------------------------------

  function Init(plan: seq<Entry>, now: u32): Sched {
    Sched(plan, seq(|plan|, _ => now), seq(|plan|, _ => NO_STATS), -1, 0, 0, false, false)
  }

  /** The gap since the last transmit has not elapsed. */
  predicate TooSoon(s: Sched, now: u32, gapMs: u32) {
    s.anyTx && Since(now, s.lastTxMs) < Signed(gapMs)
  }

  /** i is due, and nothing due is later; of equals the lowest index. */
  predicate MostOverdue(s: Sched, now: u32, i: int) {
    && 0 <= i < |s.due| && Reached(now, s.due[i])
    && (forall k :: 0 <= k < |s.due| && Reached(now, s.due[k]) ==>
          Since(now, s.due[k]) < Since(now, s.due[i]) || (Since(now, s.due[k]) == Since(now, s.due[i]) && i <= k))
  }

  predicate NothingDue(s: Sched, now: u32) {
    forall k :: 0 <= k < |s.due| ==> !Reached(now, s.due[k])
  }

  /** What pick may answer. */
  predicate Picks(s: Sched, now: u32, gapMs: u32, i: int) {
    if s.inflight >= 0 || TooSoon(s, now, gapMs) || NothingDue(s, now) then i == -1
    else MostOverdue(s, now, i)
  }

  function Sent(s: Sched, i: int, now: u32): Sched
    requires s.Ok()
  {
    if !(0 <= i < |s.plan|) then s
    else
      s.(inflight := i, sentMs := now, lastTxMs := now, anyTx := true,
         st := s.st[i := s.st[i].(requests := Wrap(s.st[i].requests + 1))])
  }

  function TxFailed(s: Sched, i: int, now: u32): Sched
    requires s.Ok()
  {
    if !(0 <= i < |s.plan|) then s
    else
      s.(st := s.st[i := s.st[i].(txFailed := Wrap(s.st[i].txFailed + 1))],
         due := s.due[i := Wrap(now + s.plan[i].periodMs)],
         inflight := if s.inflight == i then -1 else s.inflight)
  }

  /** What a frame of dlc bytes is to the request in flight. */
  function Classify(e: Entry, data: seq<u8>): Rx {
    if |data| < 3 then Ignored
    else if data[0] / 16 == 1 then
      if |data| < 4 || data[2] != (e.mode + 0x40) % 0x100 || data[3] != e.pid then Ignored else Multiframe
    else if data[0] / 16 != 0 then Ignored
    else if data[0] < 2 || data[0] > 7 || data[0] + 1 > |data| then Ignored
    else if data[1] != (e.mode + 0x40) % 0x100 || data[2] != e.pid then Ignored
    else Reply(data[3..data[0] + 1])
  }

  /** The Single Frame that answers e with these bytes: length, mode echo, PID
      echo, the bytes, and anything behind. */
  predicate Answers(e: Entry, data: seq<u8>, payload: seq<u8>) {
    |payload| <= 5 && [|payload| + 2, (e.mode + 0x40) % 0x100, e.pid] + payload <= data
  }

  /** The First Frame of an answer to e that is longer than one frame. */
  predicate BeginsLong(e: Entry, data: seq<u8>) {
    |data| >= 4 && 0x10 <= data[0] <= 0x1F && data[2] == (e.mode + 0x40) % 0x100 && data[3] == e.pid
  }

  lemma AnswerBytes(e: Entry, data: seq<u8>, payload: seq<u8>)
    ensures Answers(e, data, payload) <==>
            && |data| >= 3 && 2 <= data[0] <= 7 && data[0] + 1 <= |data|
            && data[1] == (e.mode + 0x40) % 0x100 && data[2] == e.pid && payload == data[3..data[0] + 1]
  {
    var head := [|payload| + 2, (e.mode + 0x40) % 0x100, e.pid];
    if Answers(e, data, payload) {
      var whole := head + payload;
      assert whole[0] == head[0] && whole[1] == head[1] && whole[2] == head[2] && whole[3..] == payload;
      assert data[..|whole|] == whole && data[..|whole|][3..] == data[3..|whole|];
    }
    if |data| >= 3 && 2 <= data[0] <= 7 && data[0] + 1 <= |data| && payload == data[3..data[0] + 1]
       && data[1] == (e.mode + 0x40) % 0x100 && data[2] == e.pid {
      assert data[..3] == head;
      assert data[..data[0] + 1] == head + payload;
    }
  }

  /** Which frames are replies, and what they carry. */
  lemma ClassifyMeans(e: Entry, data: seq<u8>)
    ensures forall payload :: Classify(e, data) == Reply(payload) <==> Answers(e, data, payload)
    ensures Classify(e, data) == Multiframe <==> BeginsLong(e, data)
    ensures Classify(e, data) == Ignored <==> !BeginsLong(e, data) && forall payload :: !Answers(e, data, payload)
  {
    hide Answers;
    forall payload ensures Classify(e, data) == Reply(payload) <==> Answers(e, data, payload) {
      AnswerBytes(e, data, payload);
    }
  }

  function OnFrame(s: Sched, data: seq<u8>, now: u32): (Sched, Rx)
    requires s.Ok()
  {
    if s.inflight < 0 then (s, Ignored)
    else
      var i := s.inflight;
      var rx := Classify(s.plan[i], data);
      if rx == Ignored then (s, Ignored)
      else
        var st := s.st[i].(misses := 0, lastLatencyMs := Wrap(now - s.sentMs));
        var st' := if rx == Multiframe then st.(multiframe := Wrap(st.multiframe + 1))
                   else st.(replies := Wrap(st.replies + 1));
        (s.(st := s.st[i := st'], due := s.due[i := Wrap(s.sentMs + s.plan[i].periodMs)],
            inflight := -1, anyOk := true), rx)
  }

  /** A frame counts only while a request is in flight, and only as what it is
      to that request; any other frame changes nothing. */
  lemma FrameMeans(s: Sched, data: seq<u8>, now: u32)
    requires s.Ok()
    ensures var (s', rx) := OnFrame(s, data, now);
            && (rx == Ignored ==> s' == s)
            && (rx == Multiframe <==> s.inflight >= 0 && BeginsLong(s.plan[s.inflight], data))
            && (forall payload ::
                  rx == Reply(payload) <==> s.inflight >= 0 && Answers(s.plan[s.inflight], data, payload))
  {
    hide Answers, BeginsLong, Classify;
    if s.inflight >= 0 { ClassifyMeans(s.plan[s.inflight], data); }
  }

  predicate TimedOut(s: Sched, now: u32, timeoutMs: u32) {
    s.inflight >= 0 && Since(now, s.sentMs) >= Signed(timeoutMs)
  }

  function CheckTimeout(s: Sched, now: u32, timeoutMs: u32, backoffMaxMs: u32): Sched
    requires s.Ok()
  {
    if !TimedOut(s, now, timeoutMs) then s
    else
      var i := s.inflight;
      var m: u8 := if s.st[i].misses < 16 then s.st[i].misses + 1 else s.st[i].misses;
      s.(st := s.st[i := s.st[i].(timeouts := Wrap(s.st[i].timeouts + 1), misses := m)],
         due := s.due[i := Wrap(now + BackoffMs(s.plan[i].periodMs, m, backoffMaxMs))],
         inflight := -1)
  }

  // ---- the structure and its operations in place -------------------------

  class Scheduler {
    const plan: seq<Entry>
    const due: array<u32>
    const st: array<Stats>
    var inflight: int
    var sentMs: u32
    var lastTxMs: u32
    var anyTx: bool
    var anyOk: bool

    ghost predicate Valid()
      reads this, due, st
    {
      due.Length == |plan| && st.Length == |plan| && State().Ok()
    }

    ghost function State(): Sched
      reads this, due, st
    {
      Sched(plan, due[..], st[..], inflight, sentMs, lastTxMs, anyTx, anyOk)
    }

    constructor (plan: seq<Entry>, now: u32)
      requires PlanOk(plan)
      ensures Valid() && State() == Init(plan, now) && fresh(due) && fresh(st)
    {
      this.plan := plan;
      due := new u32[|plan|](_ => now);
      st := new Stats[|plan|](_ => NO_STATS);
      inflight := -1;
      sentMs, lastTxMs, anyTx, anyOk := 0, 0, false, false;
      new;
      forall k | 0 <= k < |plan| ensures plan[k].periodMs > 0 { assert EntryOk(plan[k]); }
      assert due[..] == seq(|plan|, _ => now) && st[..] == seq(|plan|, _ => NO_STATS);
    }

    method Pick(now: u32, gapMs: u32) returns (best: int)
      requires Valid()
      ensures Picks(State(), now, gapMs, best)
    {
      best := -1;
      if inflight >= 0 || |plan| == 0 { return; }
      if anyTx && Since(now, lastTxMs) < Signed(gapMs) { return; }
      var bestLate: int := -1;
      for i := 0 to |plan|
        invariant best == -1 ==> bestLate == -1 && forall k :: 0 <= k < i ==> !Reached(now, due[k])
        invariant best != -1 ==>
                    && 0 <= best < i && Reached(now, due[best]) && bestLate == Since(now, due[best])
                    && forall k :: 0 <= k < i && Reached(now, due[k]) ==>
                         Since(now, due[k]) < bestLate || (Since(now, due[k]) == bestLate && best <= k)
      {
        if !Reached(now, due[i]) { continue; }
        var late := Since(now, due[i]);
        if late > bestLate { bestLate := late; best := i; }
      }
      ghost var s := State();
      assert forall k :: 0 <= k < |plan| ==> s.due[k] == due[k];
    }

    method NoteSent(i: int, now: u32)
      requires Valid()
      modifies this, st
      ensures Valid() && State() == Sent(old(State()), i, now)
    {
      if i < 0 || i >= |plan| { return; }
      inflight := i;
      sentMs := now;
      lastTxMs := now;
      anyTx := true;
      st[i] := st[i].(requests := Wrap(st[i].requests + 1));
    }

    method NoteTxFailed(i: int, now: u32)
      requires Valid()
      modifies this, due, st
      ensures Valid() && State() == TxFailed(old(State()), i, now)
    {
      if i < 0 || i >= |plan| { return; }
      st[i] := st[i].(txFailed := Wrap(st[i].txFailed + 1));
      due[i] := Wrap(now + plan[i].periodMs);
      if inflight == i { inflight := -1; }
    }

    method NoteFrame(data: seq<u8>, now: u32) returns (rx: Rx)
      requires Valid()
      modifies this, due, st
      ensures Valid() && (State(), rx) == OnFrame(old(State()), data, now)
    {
      rx := Ignored;
      if inflight < 0 || |data| < 3 { return; }
      var i := inflight;
      rx := Classify(plan[i], data);
      match rx {
        case Ignored => return;
        case Multiframe =>
          st[i] := st[i].(multiframe := Wrap(st[i].multiframe + 1), misses := 0, lastLatencyMs := Wrap(now - sentMs));
        case Reply(_) =>
          st[i] := st[i].(replies := Wrap(st[i].replies + 1), misses := 0, lastLatencyMs := Wrap(now - sentMs));
      }
      due[i] := Wrap(sentMs + plan[i].periodMs);
      inflight := -1;
      anyOk := true;
    }

    method NoteTimeout(now: u32, timeoutMs: u32, backoffMaxMs: u32) returns (timedOut: bool)
      requires Valid()
      modifies this, due, st
      ensures Valid() && State() == CheckTimeout(old(State()), now, timeoutMs, backoffMaxMs)
      ensures timedOut == TimedOut(old(State()), now, timeoutMs)
    {
      hide BackoffMs, Since;
      if inflight < 0 { return false; }
      if Since(now, sentMs) < Signed(timeoutMs) { return false; }
      var i := inflight;
      var misses: u8 := if st[i].misses < 16 then st[i].misses + 1 else st[i].misses;
      st[i] := st[i].(timeouts := Wrap(st[i].timeouts + 1), misses := misses);
      var b := PollBackoffMs(plan[i].periodMs, misses, backoffMaxMs);
      due[i] := Wrap(now + b);
      inflight := -1;
      timedOut := true;
    }
  }
}
