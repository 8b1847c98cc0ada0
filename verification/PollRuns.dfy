/** Runs of the poll scheduler under true, unbounded time: bounded bypass, the
    gap between sends, and the balance of the counters. */
module PollRuns {
  import opened Words
  import opened PlanContract
  import opened PollSched

  /** The scheduler beside the true times that its wrapped times stand for. */
  datatype Timed = Timed(s: Sched, now: nat, dueT: seq<nat>, sentT: nat, lastT: nat) {
    predicate Ok() {
      && s.Ok() && |dueT| == |s.plan|
      && (forall k :: 0 <= k < |dueT| ==> s.due[k] == Wrap(dueT[k]))
      && (s.inflight >= 0 ==> s.sentMs == Wrap(sentT) && sentT <= now)
      && (s.anyTx ==> s.lastTxMs == Wrap(lastT) && lastT <= now)
    }
  }

  /** What the poller does: try to send what pick answers, offer a frame, check
      for a timeout. `i` is pick's answer, `ok` whether the bus took it. */
  datatype Event =
    | Try(at: nat, gapMs: u32, i: int, ok: bool)
    | Frame(at: nat, data: seq<u8>)
    | Tick(at: nat, timeoutMs: u32, backoffMaxMs: u32)

  predicate Enabled(g: Timed, e: Event) {
    g.now <= e.at && (e.Try? ==> Picks(g.s, Wrap(e.at), e.gapMs, e.i))
  }

  /** No due time is 2^31 ms or more away. */
  predicate Timely(g: Timed, at: nat) {
    forall k :: 0 <= k < |g.dueT| ==> -I31 < at - g.dueT[k] < I31
  }

  function Step(g: Timed, e: Event): Timed
    requires g.Ok() && Enabled(g, e)
  {
    var now := Wrap(e.at);
    match e
    case Try(at, _, i, ok) =>
      if i < 0 then g.(now := at)
      else if ok then Timed(Sent(g.s, i, now), at, g.dueT, at, at)
      else g.(s := TxFailed(g.s, i, now), now := at, dueT := g.dueT[i := at + g.s.plan[i].periodMs])
    case Frame(at, data) =>
      var (s', rx) := OnFrame(g.s, data, now);
      if rx == Ignored then g.(now := at)
      else g.(s := s', now := at, dueT := g.dueT[g.s.inflight := g.sentT + g.s.plan[g.s.inflight].periodMs])
    case Tick(at, timeoutMs, maxMs) =>
      if !TimedOut(g.s, now, timeoutMs) then g.(now := at)
      else
        var i := g.s.inflight;
        var s' := CheckTimeout(g.s, now, timeoutMs, maxMs);
        g.(s := s', now := at, dueT := g.dueT[i := at + BackoffMs(g.s.plan[i].periodMs, s'.st[i].misses, maxMs)])
  }

  /** A poller starts with every entry due at once and all counters 0. */
  lemma InitOk(plan: seq<Entry>, now: nat)
    requires PlanOk(plan)
    ensures var g := Timed(Init(plan, Wrap(now)), now, seq(|plan|, _ => now), now, now);
            g.Ok() && Balanced(g.s)
  {
    hide Open;
    NothingOpen();
    forall k | 0 <= k < |plan| ensures plan[k].periodMs > 0 { assert EntryOk(plan[k]); }
  }

  lemma NothingOpen()
    ensures Open(NO_STATS) == 0
  {
  }

  lemma TryInRange(g: Timed, e: Event)
    requires g.Ok() && Enabled(g, e) && e.Try?
    ensures -1 <= e.i < |g.s.plan| && (e.i >= 0 ==> g.s.inflight < 0)
  {
  }

  /** What the operations do to the wrapped state. */
  function Moved(s: Sched, e: Event): Sched
    requires s.Ok()
  {
    match e
    case Try(at, _, i, ok) => if ok then Sent(s, i, Wrap(at)) else TxFailed(s, i, Wrap(at))
    case Frame(at, data) => OnFrame(s, data, Wrap(at)).0
    case Tick(at, timeoutMs, maxMs) => CheckTimeout(s, Wrap(at), timeoutMs, maxMs)
  }

  lemma TryOk(g: Timed, e: Event)
    requires g.Ok() && Enabled(g, e) && e.Try?
    ensures Step(g, e).Ok() && Step(g, e).s == Moved(g.s, e) && Step(g, e).s.plan == g.s.plan
  {
    hide Picks, Wrap;
    TryInRange(g, e);
    if e.i >= 0 && !e.ok { WrapAdd(e.at, g.s.plan[e.i].periodMs); }
  }

  lemma FrameOk(g: Timed, e: Event)
    requires g.Ok() && Enabled(g, e) && e.Frame?
    ensures Step(g, e).Ok() && Step(g, e).s == Moved(g.s, e) && Step(g, e).s.plan == g.s.plan
  {
    hide Picks, Classify, Wrap;
    if g.s.inflight >= 0 { WrapAdd(g.sentT, g.s.plan[g.s.inflight].periodMs); }
  }

  lemma TickOk(g: Timed, e: Event)
    requires g.Ok() && Enabled(g, e) && e.Tick?
    ensures Step(g, e).Ok() && Step(g, e).s == Moved(g.s, e) && Step(g, e).s.plan == g.s.plan
  {
    hide Picks, Since, Wrap, BackoffMs;
    var i := g.s.inflight;
    if i >= 0 {
      var s' := Moved(g.s, e);
      WrapAdd(e.at, BackoffMs(g.s.plan[i].periodMs, s'.st[i].misses, e.backoffMaxMs));
    }
  }

  /** The wrapped state is the whole effect of the operations: Step moves the
      scheduler as they do, and the true times keep track. */
  lemma StepOk(g: Timed, e: Event)
    requires g.Ok() && Enabled(g, e)
    ensures Step(g, e).Ok() && Step(g, e).s.plan == g.s.plan
    ensures Step(g, e).s == Moved(g.s, e)
  {
    hide Step, Moved, Enabled, Timed.Ok;
    match e
    case Try(_, _, _, _) => TryOk(g, e);
    case Frame(_, _) => FrameOk(g, e);
    case Tick(_, _, _) => TickOk(g, e);
  }

  predicate RunOk(g: Timed, es: seq<Event>)
    requires g.Ok()
    decreases |es|
  {
    if es == [] then true
    else
      && Enabled(g, es[0])
      && (es[0].Try? ==> Timely(g, es[0].at))
      && (StepOk(g, es[0]); RunOk(Step(g, es[0]), es[1..]))
  }

  function After(g: Timed, es: seq<Event>, n: nat): (h: Timed)
    requires g.Ok() && RunOk(g, es) && n <= |es|
    ensures h.Ok() && RunOk(h, es[n..]) && h.s.plan == g.s.plan
    decreases n
  {
    if n == 0 then assert es[0..] == es; g
    else
      StepOk(g, es[0]);
      assert es[1..][n - 1..] == es[n..];
      After(Step(g, es[0]), es[1..], n - 1)
  }

  /** The event at position n is taken in the state reached before it. */
  lemma {:induction false} AtStep(g: Timed, es: seq<Event>, n: nat)
    requires g.Ok() && RunOk(g, es) && n < |es|
    ensures var h := After(g, es, n);
            && Enabled(h, es[n]) && (es[n].Try? ==> Timely(h, es[n].at))
            && After(g, es, n + 1) == Step(h, es[n]) && |h.dueT| == |g.dueT|
    decreases n
  {
    hide Sched.Ok, Timely, Picks;
    StepOk(g, es[0]);
    if n == 0 {
      assert After(Step(g, es[0]), es[1..], 0) == Step(g, es[0]);
    } else {
      AtStep(Step(g, es[0]), es[1..], n - 1);
      assert es[1..][n - 1] == es[n];
    }
  }

  function Attempt(e: Event): int { if e.Try? then e.i else -1 }

  // ---- bounded bypass ----------------------------------------------------

  /** Wrapped lateness is true lateness when nothing is 2^31 ms away. */
  lemma TrueLateness(g: Timed, at: nat, k: nat)
    requires g.Ok() && k < |g.dueT| && -I31 < at - g.dueT[k] < I31
    ensures Since(Wrap(at), g.s.due[k]) == at - g.dueT[k]
  {
    WrapDiff(at, g.dueT[k]);
  }

  /** What pick answers, on true time: nothing while a request is in flight or
      within the gap, and nothing when nothing is due; otherwise the entry that
      has been due longest, the first of equals. */
  lemma PickMeans(g: Timed, e: Event)
    requires g.Ok() && Enabled(g, e) && e.Try? && Timely(g, e.at)
    requires e.gapMs < I31 && (g.s.anyTx ==> e.at - g.lastT < I31)
    ensures var idle := g.s.inflight < 0 && (g.s.anyTx ==> e.at - g.lastT >= e.gapMs);
            if idle && exists k :: 0 <= k < |g.dueT| && g.dueT[k] <= e.at then
              && 0 <= e.i < |g.dueT| && g.dueT[e.i] <= e.at
              && forall k :: 0 <= k < |g.dueT| ==> g.dueT[e.i] < g.dueT[k] || (g.dueT[e.i] == g.dueT[k] && e.i <= k)
            else e.i == -1
  {
    hide Since, Wrap, Signed;
    forall k | 0 <= k < |g.dueT| ensures Since(Wrap(e.at), g.s.due[k]) == e.at - g.dueT[k] { TrueLateness(g, e.at, k); }
    if g.s.anyTx { GapMeans(e.at, g.lastT, e.gapMs); }
  }

  lemma GapMeans(at: nat, last: nat, gapMs: u32)
    requires last <= at < last + I31 && gapMs < I31
    ensures Since(Wrap(at), Wrap(last)) == at - last && Signed(gapMs) == gapMs
  {
    WrapDiff(at, last);
  }

  /** i has been due for some time, and j was attempted since. */
  predicate Passed(g: Timed, i: nat, j: nat) {
    && i < |g.dueT| && j < |g.dueT| && i != j
    && g.dueT[i] <= g.now && g.s.inflight != i
    && (if g.s.inflight == j then g.dueT[i] <= g.sentT else g.dueT[i] < g.dueT[j])
  }

  lemma PassedNotPicked(g: Timed, e: Event, i: nat, j: nat)
    requires g.Ok() && Enabled(g, e) && e.Try? && Timely(g, e.at) && Passed(g, i, j)
    ensures e.i != j
  {
    TrueLateness(g, e.at, i);
    TrueLateness(g, e.at, j);
  }

  lemma PassedKept(g: Timed, e: Event, i: nat, j: nat)
    requires g.Ok() && Enabled(g, e) && Passed(g, i, j) && Attempt(e) != i && Attempt(e) != j
    ensures Passed(Step(g, e), i, j)
  {
  }

  /** An attempt at j while i is due makes j wait for i. */
  lemma AttemptPasses(g: Timed, e: Event, i: nat, j: nat)
    requires g.Ok() && Enabled(g, e) && i < |g.dueT| && i != j
    requires Attempt(e) == j && g.dueT[i] <= e.at
    ensures Passed(Step(g, e), i, j)
  {
  }

  /** From an attempt at j with i due until i is attempted, j waits. */
  lemma {:induction false} StillPassed(g: Timed, es: seq<Event>, i: nat, j: nat, a: nat, n: nat)
    requires g.Ok() && RunOk(g, es) && i < |g.dueT| && i != j
    requires a < n <= |es| && Attempt(es[a]) == j && After(g, es, a).dueT[i] <= es[a].at
    requires forall k :: a < k < n ==> Attempt(es[k]) != i
    ensures Passed(After(g, es, n), i, j)
    decreases n
  {
    hide Step, Enabled, Timed.Ok, RunOk, After, Passed, Timely;
    AtStep(g, es, n - 1);
    var h := After(g, es, n - 1);
    if a == n - 1 {
      AttemptPasses(h, es[a], i, j);
    } else {
      StillPassed(g, es, i, j, a, n - 1);
      if es[n - 1].Try? { PassedNotPicked(h, es[n - 1], i, j); }
      PassedKept(h, es[n - 1], i, j);
    }
  }

  /** Once i is due, every other entry is attempted at most once before i: of
      two attempts at j, with i due at the first, one at i lies between. */
  lemma BoundedBypass(g: Timed, es: seq<Event>, i: nat, j: nat, a: nat, b: nat)
    requires g.Ok() && RunOk(g, es) && i < |g.dueT| && i != j
    requires a < b < |es| && Attempt(es[a]) == j && Attempt(es[b]) == j
    requires After(g, es, a).dueT[i] <= es[a].at
    ensures exists k :: a < k < b && Attempt(es[k]) == i
  {
    hide Step, Enabled, Timed.Ok, RunOk, After, Passed, Timely;
    if forall k :: a < k < b ==> Attempt(es[k]) != i {
      StillPassed(g, es, i, j, a, b);
      AtStep(g, es, b);
      PassedNotPicked(After(g, es, b), es[b], i, j);
    }
  }

  // ---- the gap between sends ---------------------------------------------

  predicate Sends(e: Event) { e.Try? && e.i >= 0 && e.ok }

  /** The last send stays on record. */
  lemma {:induction false} LastSendKept(g: Timed, es: seq<Event>, a: nat, n: nat)
    requires g.Ok() && RunOk(g, es) && a < n <= |es| && Sends(es[a])
    ensures After(g, es, n).s.anyTx && After(g, es, n).lastT >= es[a].at
    decreases n
  {
    hide RunOk, After, Timely;
    AtStep(g, es, n - 1);
    if a < n - 1 { LastSendKept(g, es, a, n - 1); }
  }

  lemma SendAfterGap(g: Timed, e: Event)
    requires g.Ok() && Enabled(g, e) && e.Try? && e.i >= 0 && g.s.anyTx && e.gapMs < I31
    ensures g.s.inflight < 0 && e.at - g.lastT >= e.gapMs
  {
    hide Sched.Ok, NothingDue, MostOverdue;
    WrapDiff(e.at, g.lastT);
  }

  /** Any two sends of a run are a gap apart, however far apart the clock's
      wraps are; and nothing is in flight when the later one is made. */
  lemma SendsApart(g: Timed, es: seq<Event>, a: nat, b: nat)
    requires g.Ok() && RunOk(g, es) && a < b < |es| && Sends(es[a]) && Sends(es[b]) && es[b].gapMs < I31
    ensures After(g, es, b).s.inflight < 0
    ensures es[b].at >= es[a].at + es[b].gapMs
  {
    AtStep(g, es, b);
    LastSendKept(g, es, a, b);
    SendAfterGap(After(g, es, b), es[b]);
  }

  // ---- the counters ------------------------------------------------------

  /** Every request sent was answered, timed out, or is in flight. */
  predicate Balanced(s: Sched)
    requires s.Ok()
  {
    forall k :: 0 <= k < |s.plan| ==>
      Open(s.st[k]) == (if s.inflight == k then 1 else 0)
  }

  lemma {:induction false} CountersBalance(g: Timed, es: seq<Event>, n: nat)
    requires g.Ok() && RunOk(g, es) && Balanced(g.s) && n <= |es|
    ensures Balanced(After(g, es, n).s)
    decreases n
  {
    if n > 0 {
      CountersBalance(g, es, n - 1);
      AtStep(g, es, n - 1);
      StepBalance(After(g, es, n - 1), es[n - 1]);
    }
  }

  function Open(t: Stats): u32 { Wrap(t.requests - t.replies - t.timeouts - t.multiframe) }

  /** Did a counter move on by one? */
  function Up(t: u32, u: u32): int { if u == t then 0 else 1 }

  predicate Follows(t: u32, u: u32) { u == t || u == Wrap(t + 1) }

  /** How often a counter wrapped. */
  function Carry(t: u32, u: u32): (c: int)
    requires Follows(t, u)
    ensures u == t + Up(t, u) - U32 * c
  {
    if u < t then 1 else 0
  }

  /** Counting one more event moves the balance by one. */
  lemma OpenMoves(t: Stats, u: Stats)
    requires Follows(t.requests, u.requests) && Follows(t.replies, u.replies)
    requires Follows(t.timeouts, u.timeouts) && Follows(t.multiframe, u.multiframe)
    ensures Open(u) == Wrap(Open(t) + (Up(t.requests, u.requests) - Up(t.replies, u.replies)
                                       - Up(t.timeouts, u.timeouts) - Up(t.multiframe, u.multiframe)))
  {
    hide Follows, Carry, Up, Wrap;
    var x: int := t.requests - t.replies - t.timeouts - t.multiframe;
    var d := Up(t.requests, u.requests) - Up(t.replies, u.replies)
             - Up(t.timeouts, u.timeouts) - Up(t.multiframe, u.multiframe);
    var k := Carry(t.requests, u.requests) - Carry(t.replies, u.replies)
             - Carry(t.timeouts, u.timeouts) - Carry(t.multiframe, u.multiframe);
    assert u.requests - u.replies - u.timeouts - u.multiframe == x + d - U32 * k;
    WrapShift(x + d, k);
    WrapAdd(x, d);
  }

  lemma WrapShift(x: int, k: int)
    ensures Wrap(x - U32 * k) == Wrap(x)
  {
  }

  /** One operation moves the counters of entry k by one at most, and its
      balance with what is in flight. */
  predicate Counted(s: Sched, s': Sched, k: nat)
    requires k < |s.st| && k < |s'.st|
  {
    var (t, u) := (s.st[k], s'.st[k]);
    && Follows(t.requests, u.requests) && Follows(t.replies, u.replies)
    && Follows(t.timeouts, u.timeouts) && Follows(t.multiframe, u.multiframe)
    && Up(t.requests, u.requests) - Up(t.replies, u.replies)
       - Up(t.timeouts, u.timeouts) - Up(t.multiframe, u.multiframe)
       == (if s'.inflight == k then 1 else 0) - (if s.inflight == k then 1 else 0)
  }

  lemma OneUp(t: u32)
    ensures Follows(t, t) && Up(t, t) == 0 && Follows(t, Wrap(t + 1)) && Up(t, Wrap(t + 1)) == 1
  {
  }

  lemma MovedCounts(g: Timed, e: Event, k: nat)
    requires g.Ok() && Enabled(g, e) && k < |g.s.st|
    ensures k < |Moved(g.s, e).st| && Counted(g.s, Moved(g.s, e), k)
  {
    hide Picks, Classify, BackoffMs, Since, Wrap, Follows, Up;
    if e.Try? { TryInRange(g, e); }
    var t := g.s.st[k];
    OneUp(t.requests);
    OneUp(t.replies);
    OneUp(t.timeouts);
    OneUp(t.multiframe);
  }

  lemma StepBalance(g: Timed, e: Event)
    requires g.Ok() && Enabled(g, e) && Balanced(g.s)
    ensures Step(g, e).Ok() && Balanced(Step(g, e).s)
  {
    hide Moved, Step, Enabled, Follows, Up, Open;
    StepOk(g, e);
    var h := Step(g, e);
    forall k | 0 <= k < |g.s.plan| ensures Open(h.s.st[k]) == (if h.s.inflight == k then 1 else 0) {
      MovedCounts(g, e, k);
      OpenMoves(g.s.st[k], h.s.st[k]);
    }
  }

  // ---- what each counter counts ------------------------------------------

  /** What happened to entry k: requests sent and refused, replies in one frame
      and in several, timeouts, timeouts in a row since it last answered, and
      how long its last answer took. */
  datatype Book = Book(requests: nat, refused: nat, replies: nat, multiframe: nat, timeouts: nat,
                       inARow: nat, latency: int)

  const BLANK := Book(0, 0, 0, 0, 0, 0, 0)

  ghost predicate IsReply(e: Entry, data: seq<u8>) { exists payload :: Answers(e, data, payload) }

  ghost function Noted(b: Book, g: Timed, e: Event, k: nat): Book
    requires g.Ok() && k < |g.s.plan|
  {
    match e
    case Try(_, _, i, ok) =>
      if i != k then b else if ok then b.(requests := b.requests + 1) else b.(refused := b.refused + 1)
    case Frame(at, data) =>
      if g.s.inflight != k then b
      else if IsReply(g.s.plan[k], data) then b.(replies := b.replies + 1, inARow := 0, latency := at - g.sentT)
      else if BeginsLong(g.s.plan[k], data) then
        b.(multiframe := b.multiframe + 1, inARow := 0, latency := at - g.sentT)
      else b
    case Tick(at, timeoutMs, _) =>
      if g.s.inflight == k && Signed(Wrap(at - g.sentT)) >= Signed(timeoutMs) then
        b.(timeouts := b.timeouts + 1, inARow := b.inARow + 1)
      else b
  }

  ghost function Booked(g: Timed, es: seq<Event>, n: nat, k: nat): Book
    requires g.Ok() && RunOk(g, es) && n <= |es| && k < |g.s.plan|
    decreases n
  {
    if n == 0 then BLANK
    else
      AtStep(g, es, n - 1);
      Noted(Booked(g, es, n - 1, k), After(g, es, n - 1), es[n - 1], k)
  }

  predicate Tells(t: Stats, b: Book) {
    && t.requests == Wrap(b.requests) && t.txFailed == Wrap(b.refused) && t.replies == Wrap(b.replies)
    && t.multiframe == Wrap(b.multiframe) && t.timeouts == Wrap(b.timeouts) && t.misses == Min(b.inARow, 16)
    && t.lastLatencyMs == Wrap(b.latency)
  }

  lemma OneMore(x: nat)
    ensures Wrap(Wrap(x) + 1) == Wrap(x + 1)
  {
    WrapAdd(x, 1);
  }

  lemma TryTells(g: Timed, e: Event, k: nat, b: Book)
    requires g.Ok() && Enabled(g, e) && e.Try? && k < |g.s.plan| && Tells(g.s.st[k], b)
    ensures Step(g, e).Ok() && Step(g, e).s.plan == g.s.plan && Tells(Step(g, e).s.st[k], Noted(b, g, e, k))
  {
    hide Picks, Wrap;
    StepOk(g, e);
    TryInRange(g, e);
    OneMore(b.requests);
    OneMore(b.refused);
  }

  lemma FrameTells(g: Timed, e: Event, k: nat, b: Book)
    requires g.Ok() && Enabled(g, e) && e.Frame? && k < |g.s.plan| && Tells(g.s.st[k], b)
    ensures Step(g, e).Ok() && Step(g, e).s.plan == g.s.plan && Tells(Step(g, e).s.st[k], Noted(b, g, e, k))
  {
    hide Wrap, Classify, Answers, BeginsLong, Timed.Ok;
    StepOk(g, e);
    OkMeans(g);
    FrameMeans(g.s, e.data, Wrap(e.at));
    OneMore(b.replies);
    OneMore(b.multiframe);
    WrapDiff(e.at, g.sentT);
  }

  lemma OkMeans(g: Timed)
    requires g.Ok()
    ensures g.s.Ok() && (g.s.inflight >= 0 ==> g.s.sentMs == Wrap(g.sentT))
  {
  }

  lemma TickTells(g: Timed, e: Event, k: nat, b: Book)
    requires g.Ok() && Enabled(g, e) && e.Tick? && k < |g.s.plan| && Tells(g.s.st[k], b)
    ensures Step(g, e).Ok() && Step(g, e).s.plan == g.s.plan && Tells(Step(g, e).s.st[k], Noted(b, g, e, k))
  {
    hide Wrap, BackoffMs, Timed.Ok;
    StepOk(g, e);
    OkMeans(g);
    OneMore(b.timeouts);
    WrapDiff(e.at, g.sentT);
  }

  /** In every run every counter is what it says it counts, modulo 2^32; the
      misses are the timeouts in a row, up to 16; and the latency is that of
      the last answer. */
  lemma {:induction false} CountersTell(g: Timed, es: seq<Event>, n: nat, k: nat)
    requires g.Ok() && RunOk(g, es) && n <= |es| && k < |g.s.plan| && g.s.st[k] == NO_STATS
    ensures Tells(After(g, es, n).s.st[k], Booked(g, es, n, k))
    decreases n
  {
    hide RunOk, After, Step, Enabled, Noted, Tells, Timed.Ok;
    if n == 0 {
      NothingTold(g, es);
    } else {
      CountersTell(g, es, n - 1, k);
      AtStep(g, es, n - 1);
      var h, b := After(g, es, n - 1), Booked(g, es, n - 1, k);
      match es[n - 1]
      case Try(_, _, _, _) => TryTells(h, es[n - 1], k, b);
      case Frame(_, _) => FrameTells(h, es[n - 1], k, b);
      case Tick(_, _, _) => TickTells(h, es[n - 1], k, b);
    }
  }

  lemma NothingTold(g: Timed, es: seq<Event>)
    requires g.Ok() && RunOk(g, es)
    ensures After(g, es, 0) == g && Tells(NO_STATS, BLANK)
  {
  }

  /** After a timeout the entry waits its period doubled once per timeout in a
      row, up to 16, within the maximum. */
  lemma TimeoutBacksOff(g: Timed, es: seq<Event>, n: nat, k: nat)
    requires g.Ok() && RunOk(g, es) && n < |es| && k < |g.s.plan| && g.s.st[k] == NO_STATS
    requires es[n].Tick? && Booked(g, es, n + 1, k).timeouts > Booked(g, es, n, k).timeouts
    ensures After(g, es, n + 1).dueT[k] ==
            es[n].at + BackoffMs(g.s.plan[k].periodMs, Min(Booked(g, es, n + 1, k).inARow, 16), es[n].backoffMaxMs)
  {
    hide RunOk, After, Enabled, BackoffMs, Wrap;
    CountersTell(g, es, n + 1, k);
    AtStep(g, es, n);
    var h := After(g, es, n);
    WrapDiff(es[n].at, h.sentT);
  }

  /** A frame that answers the request in flight. */
  ghost predicate Heard(g: Timed, e: Event)
    requires g.Ok()
  {
    e.Frame? && g.s.inflight >= 0
    && (IsReply(g.s.plan[g.s.inflight], e.data) || BeginsLong(g.s.plan[g.s.inflight], e.data))
  }

  ghost predicate HeardBefore(g: Timed, es: seq<Event>, n: nat)
    requires g.Ok() && RunOk(g, es) && n <= |es|
    decreases n
  {
    n > 0 && (AtStep(g, es, n - 1); HeardBefore(g, es, n - 1) || Heard(After(g, es, n - 1), es[n - 1]))
  }

  /** The poller knows that the car answers exactly if it did. */
  lemma {:induction false} AnyOkMeans(g: Timed, es: seq<Event>, n: nat)
    requires g.Ok() && RunOk(g, es) && n <= |es| && !g.s.anyOk
    ensures After(g, es, n).s.anyOk <==> HeardBefore(g, es, n)
    decreases n
  {
    hide RunOk, After, Step, Enabled, Heard, Timed.Ok;
    if n == 0 {
      NothingTold(g, es);
    } else {
      AnyOkMeans(g, es, n - 1);
      AtStep(g, es, n - 1);
      HeardStep(After(g, es, n - 1), es[n - 1]);
    }
  }

  lemma HeardStep(g: Timed, e: Event)
    requires g.Ok() && Enabled(g, e)
    ensures Step(g, e).s.anyOk <==> g.s.anyOk || Heard(g, e)
  {
    hide Wrap, Classify, Answers, BeginsLong, Picks, BackoffMs;
    StepOk(g, e);
    if e.Frame? { FrameMeans(g.s, e.data, Wrap(e.at)); }
  }
}
