/** The bookend sequencer over every schedule of polls, frames and refused
    transmissions: what it asks, in which order, and what its flags mean. */
module BookendRuns {
  import opened Words
  import opened Options
  import opened IsoTp
  import opened Bookend

  /** A request as its bytes on the bus say, and when it was sent. */
  datatype Req = Req(mode: u8, pid: Option<u8>, at: u32)

  datatype Event = PollAt(now: u32) | FrameAt(id: nat, data: seq<u8>, now: u32) | TxRefused

  /** The sequencer, the requests sent, how many of them were for a support
      page, and what ECU 0 first answered to Mode 01 PID 01. */
  datatype Run = Run(s: Seq, sent: seq<Req>, pages: nat, answer: Option<seq<u8>>)

  function AskedBy(act: Act, now: u32): (r: seq<Req>)
    ensures |r| <= 1
  {
    if act.Send? && act.tx.id == 0x7DF && |act.tx.data| == 8 then
      [Req(act.tx.data[1], if act.tx.data[0] == 0x02 then Some(act.tx.data[2]) else None, now)]
    else []
  }

  predicate IsPage(q: Req) { q.mode == 6 && q.pid.Some? && q.pid.value % 0x20 == 0 }

  /** The message of this frame, if it answers Mode 01 PID 01 for the engine. */
  function Answer(s: Seq, id: nat, data: seq<u8>): Option<seq<u8>>
    requires RxOk(s)
  {
    if !ForUs(s, id) || id != 0x7E8 || s.step != Pid01Step then None
    else
      var (r, ev) := Feed(s.rx[0], data);
      if ev == Complete then Pid01(Message(r)) else None
  }

  function Step(r: Run, e: Event): Run
    requires RxOk(r.s)
  {
    match e
    case PollAt(now) =>
      var (s, act) := Poll(r.s, now);
      var q := AskedBy(act, now);
      Run(s, r.sent + q, r.pages + (if q != [] && IsPage(q[0]) then 1 else 0), r.answer)
    case FrameAt(id, data, now) =>
      Run(OnFrame(r.s, id, data, now), r.sent, r.pages, if r.answer.Some? then r.answer else Answer(r.s, id, data))
    case TxRefused => r.(s := TxFailed(r.s))
  }

  /** The run after the request loop of a poll at now. */
  function Launched(r: Run, now: u32): Run {
    var (s, act) := Launch(r.s, now);
    var q := AskedBy(act, now);
    Run(s, r.sent + q, r.pages + (if q != [] && IsPage(q[0]) then 1 else 0), r.answer)
  }

  // ---- the order of requests ---------------------------------------------

  /** How many MIDs up to m are no support page. */
  function Rank(m: nat): int { m - m / 0x20 }

  /** 01/01, 03, 07, the support pages upward from 0, then advertised MIDs in
      strictly ascending order, none of them a support page. What is advertised
      lies on the pages asked for, or is the next page. */
  predicate InOrder(sent: seq<Req>, pages: nat, support: set<u8>) {
    && pages <= 8 && (forall v: u8 :: v in support ==> v <= 0x20 * pages)
    && (|sent| > 0 ==> sent[0].mode == 1 && sent[0].pid == Some(1))
    && (|sent| > 1 ==> sent[1].mode == 3 && sent[1].pid == None)
    && (|sent| > 2 ==> sent[2].mode == 7 && sent[2].pid == None)
    && (|sent| < 3 ==> pages == 0) && (|sent| >= 3 ==> |sent| >= 3 + pages)
    && (forall k :: 3 <= k < 3 + pages ==> sent[k].mode == 6 && sent[k].pid == Some(0x20 * (k - 3)))
    && (forall k :: 4 <= k < 3 + pages ==> sent[k].pid.Some? && sent[k].pid.value in support)
    && (forall k :: 3 + pages <= k < |sent| ==> MonitorAsked(sent, pages, k, support))
  }

  predicate MonitorAsked(sent: seq<Req>, pages: nat, k: nat, support: set<u8>)
    requires 3 + pages <= k < |sent|
  {
    && sent[k].mode == 6 && sent[k].pid.Some?
    && sent[k].pid.value % 0x20 != 0 && sent[k].pid.value in support
    && (k > 3 + pages ==> sent[k - 1].pid.Some? && sent[k - 1].pid.value < sent[k].pid.value)
    && k - (3 + pages) < Rank(sent[k].pid.value)
  }

  /** None is started with too little of the budget left. */
  predicate InTime(sent: seq<Req>, s: Seq) {
    forall k :: 0 <= k < |sent| ==> !TooLate(s, sent[k].at)
  }

  /** Every advertised MID below m was asked for. */
  predicate AllAsked(sent: seq<Req>, support: set<u8>, m: nat) {
    forall v: u8 :: v in support && v % 0x20 != 0 && v < m ==> HasMid(sent, v)
  }

  predicate HasMid(sent: seq<Req>, v: u8) { exists k :: 0 <= k < |sent| && sent[k].mode == 6 && sent[k].pid == Some(v) }

  // ---- invariant ---------------------------------------------------------

  function Flag(b: bool): nat { if b then 1 else 0 }

  function Reads(step: Bookend.Step): nat {
    match step
    case Pid01Step => 0
    case M03Step => 1
    case M07Step => 2
    case SupportStep => 3
    case MidStep => 3
    case EndStep => 4
  }

  /** The last request asked for a MID below m, if it was for a MID. */
  predicate LastBelow(sent: seq<Req>, pages: nat, m: nat) {
    |sent| > 3 + pages ==> sent[|sent| - 1].pid.Some? && sent[|sent| - 1].pid.value < m
  }

  /** Where an unfinished sequence stands. */
  predicate Position(r: Run) {
    var (s, n, f) := (r.s, |r.sent|, Flag(r.s.inflight));
    match s.step
    case Pid01Step => n == f && r.pages == 0 && (s.inflight ==> s.reqMode == 1)
    case M03Step => n == 1 + f && r.pages == 0
    case M07Step => n == 2 + f && r.pages == 0
    case SupportStep =>
      && n == 3 + r.pages && 0x20 * (r.pages - f) == s.base
      && (s.inflight ==> s.reqPid == s.base) && (s.base > 0 ==> s.base in s.support)
    case MidStep =>
      && n >= 3 + r.pages && 1 <= r.pages && s.next <= 0x100
      && 0x20 * (r.pages - 1) == s.base && (s.base == 0xE0 || s.base + 0x20 !in s.support)
      && (if s.inflight then
            && n > 3 + r.pages && r.sent[n - 1].pid == Some(s.reqPid) && AllAsked(r.sent, s.support, s.reqPid + 1)
          else
            LastBelow(r.sent, r.pages, s.next) && AllAsked(r.sent, s.support, s.next))
    case EndStep => false
  }

  /** What the flags of a finished sequence say. */
  predicate Verdict(r: Run) {
    var s := r.s;
    && (s.d.flags.complete <==> s.stepsDone == 4 && !s.d.flags.truncated)
    && (s.outOfTime || s.txFailed ==> s.d.flags.truncated)
    && (s.d.flags.noResponse <==> r.answer.None?)
    && (s.stepsDone == 4 ==>
          && AllAsked(r.sent, s.support, 0x100) && 1 <= r.pages
          && (r.pages == 8 || 0x20 * r.pages !in s.support))
  }

  predicate Pid01Kept(r: Run) {
    && (r.s.pid01Ecu0 <==> r.answer.Some?)
    && r.s.d.pid01 == if r.answer.Some? then r.answer.value else [0xFF, 0xFF, 0xFF, 0xFF]
  }

  predicate Bounded(s: Seq) {
    && RxOk(s) && (forall i :: i in s.fcPending ==> i < RESPONDERS)
    && |s.d.stored| <= MAX_STORED && |s.d.pending| <= MAX_PENDING && |s.d.m06| <= MAX_M06
  }

  predicate Fresh(s: Seq) {
    !s.d.flags.complete && !s.d.flags.noResponse && !s.outOfTime && !s.txFailed && s.stepsDone == Reads(s.step)
  }

  ghost predicate Inv(r: Run) {
    && Bounded(r.s) && Pid01Kept(r)
    && InOrder(r.sent, r.pages, r.s.support) && InTime(r.sent, r.s)
    && (if r.s.finished then Verdict(r) else Position(r) && Fresh(r.s))
  }

  // ---- steps -------------------------------------------------------------

  lemma BeginInv(kind: u8, now: u32, budgetMs: u32, t: Timing)
    ensures Inv(Run(Begin(kind, now, budgetMs, t), [], 0, None))
  {
  }

  lemma FinishKeeps(r: Run, s: Seq)
    requires Bounded(r.s) && Pid01Kept(r) && InOrder(r.sent, r.pages, r.s.support) && InTime(r.sent, r.s) && Fresh(r.s)
    requires s == r.s.(inflight := s.inflight, outOfTime := s.outOfTime, txFailed := s.txFailed)
    requires r.s.step != EndStep && (s.outOfTime || s.txFailed)
    ensures Inv(r.(s := Finish(s)))
  {
    hide InOrder, Valid, AllAsked;
    assert InTime(r.sent, s);
  }

  lemma NotAtEnd(r: Run)
    requires Position(r)
    ensures r.s.step != EndStep
  {
  }

  lemma TxRefusedKeeps(r: Run)
    requires Inv(r)
    ensures Inv(Step(r, TxRefused))
  {
    hide InOrder, InTime, Pid01Kept, Bounded, Position, Verdict;
    if !r.s.finished {
      NotAtEnd(r);
      FinishKeeps(r, r.s.(inflight := false, txFailed := true));
    }
  }

  /** Nothing in flight, the next step chosen. */
  lemma AdvanceKeeps(r: Run)
    requires Inv(r) && !r.s.finished && r.s.inflight
    ensures var s := Advance(r.s.(inflight := false)); Inv(r.(s := s)) && !s.inflight && !s.finished
  {
    hide InOrder, Valid;
    var s := Advance(r.s.(inflight := false));
    assert InTime(r.sent, s);
  }

  /** One more request of the expected kind keeps the order. */
  lemma EarlyInOrder(sent: seq<Req>, q: Req, support: set<u8>)
    requires InOrder(sent, 0, support) && |sent| < 3
    requires |sent| == 0 ==> q.mode == 1 && q.pid == Some(1)
    requires |sent| == 1 ==> q.mode == 3 && q.pid == None
    requires |sent| == 2 ==> q.mode == 7 && q.pid == None
    ensures InOrder(sent + [q], 0, support)
  {
  }

  lemma PageInOrder(sent: seq<Req>, pages: nat, q: Req, support: set<u8>)
    requires InOrder(sent, pages, support) && |sent| == 3 + pages && pages < 8
    requires q.mode == 6 && q.pid == Some(0x20 * pages) && (pages > 0 ==> 0x20 * pages in support)
    ensures InOrder(sent + [q], pages + 1, support)
  {
    var out := sent + [q];
    assert forall k :: 0 <= k < |sent| ==> out[k] == sent[k];
  }

  lemma RankGrows(a: nat, b: nat)
    requires a < b && b % 0x20 != 0
    ensures Rank(a) < Rank(b) && Rank(b) >= 1
  {
  }

  lemma MonitorInOrder(sent: seq<Req>, pages: nat, q: Req, support: set<u8>)
    requires InOrder(sent, pages, support) && |sent| >= 3 + pages
    requires q.mode == 6 && q.pid.Some? && q.pid.value % 0x20 != 0 && q.pid.value in support
    requires LastBelow(sent, pages, q.pid.value)
    ensures InOrder(sent + [q], pages, support)
  {
    hide Rank;
    var out := sent + [q];
    assert forall k :: 0 <= k < |sent| ==> out[k] == sent[k];
    forall k | 3 + pages <= k < |out| ensures MonitorAsked(out, pages, k, support) {
      if k < |sent| {
        assert MonitorAsked(sent, pages, k, support);
      } else if k > 3 + pages {
        assert MonitorAsked(sent, pages, k - 1, support);
        RankGrows(sent[k - 1].pid.value, q.pid.value);
      } else {
        RankGrows(0, q.pid.value);
      }
    }
  }

  lemma InTimeMore(sent: seq<Req>, s: Seq, q: Req, s': Seq)
    requires InTime(sent, s) && !TooLate(s, q.at) && s'.deadline == s.deadline && s'.t == s.t
    ensures InTime(sent + [q], s')
  {
  }

  lemma AskedMore(sent: seq<Req>, support: set<u8>, m: nat, mid: u8, q: Req)
    requires AllAsked(sent, support, m) && q.mode == 6 && q.pid == Some(mid) && m <= mid
    requires forall v: u8 :: m <= v < mid ==> v % 0x20 == 0 || v !in support
    ensures AllAsked(sent + [q], support, mid + 1)
  {
    var out := sent + [q];
    forall v: u8 | v in support && v % 0x20 != 0 && v < mid + 1 ensures HasMid(out, v) {
      if v == mid {
        assert out[|sent|] == q;
      } else {
        assert v < m;
        var k :| 0 <= k < |sent| && sent[k].mode == 6 && sent[k].pid == Some(v);
        assert out[k] == sent[k];
      }
    }
  }

  lemma LastBelowMore(sent: seq<Req>, pages: nat, m: nat, n: nat)
    requires LastBelow(sent, pages, m) && m <= n
    ensures LastBelow(sent, pages, n)
  {
  }

  lemma AskedToTheEnd(sent: seq<Req>, support: set<u8>, m: nat)
    requires AllAsked(sent, support, m) && forall v: u8 :: m <= v < 0x100 ==> v % 0x20 == 0 || v !in support
    ensures AllAsked(sent, support, 0x100)
  {
  }

  /** The next advertised MID, or none left and all of them asked for. */
  lemma MonitorKeeps(r: Run, now: u32)
    requires Inv(r) && !r.s.finished && !r.s.inflight && r.s.step == MidStep && !TooLate(r.s, now)
    ensures Inv(Launched(r, now))
  {
    hide InOrder, AllAsked, LastBelow, TooLate, InTime, NextMid, Valid;
    var s := r.s;
    var (s', act) := Launch(s, now);
    var mid := NextMid(s.support, s.next);
    if mid > 0xFF {
      AskedToTheEnd(r.sent, s.support, s.next);
      assert r.sent + AskedBy(act, now) == r.sent;
      InTimeSame(r.sent, s, s');
    } else {
      var q := AskedBy(act, now)[0];
      LastBelowMore(r.sent, r.pages, s.next, mid);
      MonitorInOrder(r.sent, r.pages, q, s.support);
      AskedMore(r.sent, s.support, s.next, mid, q);
      InTimeMore(r.sent, s, q, s');
    }
  }

  lemma InTimeSame(sent: seq<Req>, s: Seq, s': Seq)
    requires InTime(sent, s) && s'.deadline == s.deadline && s'.t == s.t
    ensures InTime(sent, s')
  {
  }

  /** The first three requests. */
  lemma EarlyKeeps(r: Run, now: u32)
    requires Inv(r) && !r.s.finished && !r.s.inflight && !TooLate(r.s, now)
    requires r.s.step == Pid01Step || r.s.step == M03Step || r.s.step == M07Step
    ensures Inv(Launched(r, now))
  {
    hide InOrder, InTime, AllAsked, LastBelow, TooLate, NextMid, Valid;
    var q := AskedBy(Launch(r.s, now).1, now)[0];
    InTimeMore(r.sent, r.s, q, Launch(r.s, now).0);
    EarlyInOrder(r.sent, q, r.s.support);
  }

  /** The next support page. */
  lemma PageKeeps(r: Run, now: u32)
    requires Inv(r) && !r.s.finished && !r.s.inflight && r.s.step == SupportStep && !TooLate(r.s, now)
    ensures Inv(Launched(r, now))
  {
    hide InOrder, InTime, AllAsked, LastBelow, TooLate, NextMid, Valid;
    var q := AskedBy(Launch(r.s, now).1, now)[0];
    InTimeMore(r.sent, r.s, q, Launch(r.s, now).0);
    assert r.s.base == 0x20 * r.pages && q.pid == Some(r.s.base) && IsPage(q);
    PageInOrder(r.sent, r.pages, q, r.s.support);
  }

  lemma TooLateKeeps(r: Run, now: u32)
    requires Inv(r) && !r.s.finished && !r.s.inflight && TooLate(r.s, now)
    ensures Inv(Launched(r, now))
  {
    hide InOrder, InTime, Position, Finish, TooLate, Bounded, Fresh, Pid01Kept, Verdict, NextMid;
    NotAtEnd(r);
    FinishKeeps(r, r.s.(outOfTime := true));
    assert r.sent + [] == r.sent;
  }

  /** The request loop: a request in order and in time, or the end. */
  lemma LaunchKeeps(r: Run, now: u32)
    requires Inv(r) && !r.s.finished && !r.s.inflight
    ensures Inv(Launched(r, now))
  {
    hide InOrder, InTime, Position, TooLate, Launched, Bounded, Fresh, Pid01Kept, Verdict;
    NotAtEnd(r);
    if TooLate(r.s, now) {
      TooLateKeeps(r, now);
    } else if r.s.step == SupportStep {
      PageKeeps(r, now);
    } else if r.s.step == MidStep {
      MonitorKeeps(r, now);
    } else {
      EarlyKeeps(r, now);
    }
  }

  /** bookendSeqPoll keeps the invariant at any time. */
  lemma PollKeeps(r: Run, now: u32)
    requires Inv(r)
    ensures Inv(Step(r, PollAt(now)))
  {
    hide InOrder, InTime, Pid01Kept, Position, Verdict, Fresh, Launch, Advance, Valid;
    var s := r.s;
    var (_, act) := Poll(s, now);
    assert r.sent + [] == r.sent;
    if !s.finished && s.fcPending == {} {
      if s.inflight && Settled(s, now) {
        AdvanceKeeps(r);
        LaunchKeeps(r.(s := Advance(s.(inflight := false))), now);
      } else if s.inflight && Reached(now, s.deadline) {
        NotAtEnd(r);
        FinishKeeps(r, s.(inflight := false, outOfTime := true));
      } else if !s.inflight {
        LaunchKeeps(r, now);
      }
    } else if !s.finished {
      FlowControlKeeps(r);
    }
  }

  lemma FlowControlKeeps(r: Run)
    requires Inv(r) && !r.s.finished && r.s.fcPending != {}
    ensures var i := Least(r.s.fcPending, 0);
            && i in r.s.fcPending && AskedBy(Send(FlowControlTx(i)), 0) == []
            && Inv(r.(s := r.s.(fcPending := r.s.fcPending - {i})))
  {
    hide InOrder, Valid;
    var i :| i in r.s.fcPending;
    LeastIn(r.s.fcPending, 0, i);
    assert InTime(r.sent, r.s.(fcPending := r.s.fcPending - {Least(r.s.fcPending, 0)}));
  }

  lemma {:induction false} LeastIn(f: set<nat>, i: nat, k: nat)
    requires k in f && i <= k < RESPONDERS
    ensures Least(f, i) in f && Least(f, i) <= k
    decreases k - i
  {
    if i !in f { LeastIn(f, i + 1, k); }
  }

  lemma SupportKeeps(r: Run, more: set<u8>)
    requires Inv(r) && !r.s.finished && r.s.inflight && r.s.step == SupportStep
    requires forall v: u8 :: v in more ==> v <= r.s.base + 0x20
    ensures Inv(r.(s := r.s.(any := true, support := r.s.support + more)))
  {
    hide Valid;
  }

  /** The trouble codes and monitor results read, within the caps. */
  lemma DataKeeps(r: Run, d: Data)
    requires Inv(r) && !r.s.finished && d.pid01 == r.s.d.pid01
    requires !d.flags.complete && !d.flags.noResponse
    requires |d.stored| <= MAX_STORED && |d.pending| <= MAX_PENDING && |d.m06| <= MAX_M06
    ensures Inv(r.(s := r.s.(any := true, d := d)))
  {
    hide InOrder, Valid, AllAsked, LastBelow;
    assert InTime(r.sent, r.s.(any := true, d := d));
  }

  /** ECU 0 answers 01/01 for the first time, or not. */
  lemma AnswerKeeps(r: Run, answer: Option<seq<u8>>)
    requires Inv(r) && !r.s.finished && r.answer.None?
    ensures var d := r.s.d.(pid01 := if answer.Some? then answer.value else r.s.d.pid01);
            Inv(Run(r.s.(any := true, d := d, pid01Ecu0 := answer.Some?), r.sent, r.pages, answer))
  {
    hide InOrder, Valid, AllAsked, LastBelow;
    assert InTime(r.sent, r.s.(any := true, pid01Ecu0 := true));
  }

  lemma ParsedData(d: Data, ecu: u8, p: seq<u8>)
    requires |d.stored| <= MAX_STORED && |d.pending| <= MAX_PENDING && |d.m06| <= MAX_M06
    ensures forall e ::
              e == ParseDtcs(d, ecu, false, p) || e == ParseDtcs(d, ecu, true, p) || e == ParseM06Results(d, ecu, p) ==>
              && e.pid01 == d.pid01 && e.flags.complete == d.flags.complete && e.flags.noResponse == d.flags.noResponse
              && |e.stored| <= MAX_STORED && |e.pending| <= MAX_PENDING && |e.m06| <= MAX_M06
  {
    hide Codes, Monitors;
  }

  /** A message changes what was read, and what is advertised, only. */
  lemma HandleKeeps(r: Run, ecu: u8, p: seq<u8>, answer: Option<seq<u8>>)
    requires Inv(r) && !r.s.finished && r.s.inflight
    requires answer == if r.answer.None? && ecu == 0 && r.s.step == Pid01Step then Pid01(p) else r.answer
    ensures Inv(Run(Handle(r.s, ecu, p), r.sent, r.pages, answer))
  {
    hide InOrder, InTime, Valid, AllAsked, Codes, Monitors, ParseDtcs, ParseM06Results;
    var s := r.s;
    ParsedData(s.d, ecu, p);
    match s.step
    case SupportStep => SupportKeeps(r, SupportOf(s.base, p));
    case M03Step => DataKeeps(r, ParseDtcs(s.d, ecu, false, p));
    case M07Step => DataKeeps(r, ParseDtcs(s.d, ecu, true, p));
    case MidStep =>
      DataKeeps(r, ParseM06Results(s.d, ecu, p));
      DataKeeps(r, s.d);
    case _ =>
      DataKeeps(r, s.d);
      if r.answer.None? { AnswerKeeps(r, answer); }
  }

  /** A frame first goes to its responder's receiver. */
  lemma ReceiverKeeps(r: Run, i: nat, rx: Rx, now: u32, fc: bool)
    requires Inv(r) && !r.s.finished && i < RESPONDERS && Valid(rx)
    ensures Inv(r.(s := r.s.(lastRxMs := now, rx := r.s.rx[i := rx],
                             fcPending := r.s.fcPending + if fc then {i} else {})))
  {
    hide InOrder, Valid, AllAsked, LastBelow;
    var s := r.s.(lastRxMs := now, rx := r.s.rx[i := rx], fcPending := r.s.fcPending + if fc then {i} else {});
    assert InTime(r.sent, s) && Bounded(s);
  }

  lemma FrameKeeps(r: Run, id: nat, data: seq<u8>, now: u32)
    requires Inv(r)
    ensures Inv(Step(r, FrameAt(id, data, now)))
  {
    hide InOrder, InTime, Pid01Kept, Position, Verdict, Fresh, Feed, Handle, Message, Pid01;
    if ForUs(r.s, id) {
      var i := id - 0x7E8;
      var (rx, ev) := Feed(r.s.rx[i], data);
      ReceiverKeeps(r, i, rx, now, ev == NeedFc);
      assert r.s.fcPending + {} == r.s.fcPending;
      if ev == Complete {
        var m := r.(s := r.s.(lastRxMs := now, rx := r.s.rx[i := rx]));
        HandleKeeps(m, i, Message(rx), Step(r, FrameAt(id, data, now)).answer);
      }
    }
  }

  // ---- whole runs --------------------------------------------------------

  lemma StepKeeps(r: Run, e: Event)
    requires Inv(r)
    ensures RxOk(r.s) && Inv(Step(r, e))
  {
    hide Inv, Step;
    InvRx(r);
    match e
    case PollAt(now) => PollKeeps(r, now);
    case FrameAt(id, data, now) => FrameKeeps(r, id, data, now);
    case TxRefused => TxRefusedKeeps(r);
  }

  lemma InvRx(r: Run)
    requires Inv(r)
    ensures RxOk(r.s)
  {
  }

  /** The runs of a sequence started with these arguments. */
  ghost predicate Reaches(kind: u8, now: u32, budgetMs: u32, t: Timing, es: seq<Event>, r: Run)
    decreases |es|
  {
    if es == [] then r == Run(Begin(kind, now, budgetMs, t), [], 0, None)
    else exists q :: Reaches(kind, now, budgetMs, t, es[..|es| - 1], q) && RxOk(q.s) && r == Step(q, es[|es| - 1])
  }

  lemma {:induction false} ReachesInv(kind: u8, now: u32, budgetMs: u32, t: Timing, es: seq<Event>, r: Run)
    requires Reaches(kind, now, budgetMs, t, es, r)
    ensures Inv(r)
    decreases |es|
  {
    hide Inv, Step;
    if es == [] {
      BeginInv(kind, now, budgetMs, t);
    } else {
      var q :| Reaches(kind, now, budgetMs, t, es[..|es| - 1], q) && RxOk(q.s) && r == Step(q, es[|es| - 1]);
      ReachesInv(kind, now, budgetMs, t, es[..|es| - 1], q);
      StepKeeps(q, es[|es| - 1]);
    }
  }

  /** Deadline and timing are those the sequence was started with. */
  lemma {:induction false} DeadlineFixed(kind: u8, now: u32, budgetMs: u32, t: Timing, es: seq<Event>, r: Run)
    requires Reaches(kind, now, budgetMs, t, es, r)
    ensures r.s.deadline == Wrap(now + budgetMs) && r.s.t == t
    decreases |es|
  {
    hide Step, Wrap;
    if es != [] {
      var q :| Reaches(kind, now, budgetMs, t, es[..|es| - 1], q) && RxOk(q.s) && r == Step(q, es[|es| - 1]);
      DeadlineFixed(kind, now, budgetMs, t, es[..|es| - 1], q);
      StepFixed(q, es[|es| - 1]);
    }
  }

  predicate SameClock(s: Seq, s': Seq) { s'.deadline == s.deadline && s'.t == s.t }

  lemma LaunchFixed(s: Seq, now: u32)
    ensures SameClock(s, Launch(s, now).0)
  {
    hide NextMid, NoRx, RequestTx, TooLate;
  }

  lemma HandleFixed(s: Seq, ecu: u8, p: seq<u8>)
    ensures SameClock(s, Handle(s, ecu, p))
  {
    hide ParseDtcs, ParseM06Results, SupportOf, Pid01;
  }

  lemma PollFixed(s: Seq, now: u32)
    ensures SameClock(s, Poll(s, now).0)
  {
    hide Launch, Advance, Settled, Reached, Least, FlowControlTx;
    var m := s.(inflight := false);
    AdvanceSame(m);
    LaunchFixed(Advance(m), now);
    LaunchFixed(s, now);
  }

  lemma FrameFixed(s: Seq, id: nat, data: seq<u8>, now: u32)
    requires RxOk(s)
    ensures SameClock(s, OnFrame(s, id, data, now))
  {
    hide Handle, Feed, Valid, Message;
    if ForUs(s, id) {
      var i := id - 0x7E8;
      assert Valid(s.rx[i]);
      var (r, ev) := Feed(s.rx[i], data);
      HandleFixed(s.(lastRxMs := now, rx := s.rx[i := r]), i, Message(r));
    }
  }

  lemma StepFixed(r: Run, e: Event)
    requires RxOk(r.s)
    ensures SameClock(r.s, Step(r, e).s)
  {
    hide Poll, OnFrame, Answer, AskedBy;
    match e
    case PollAt(now) => PollFixed(r.s, now);
    case FrameAt(id, data, now) => FrameFixed(r.s, id, data, now);
    case TxRefused =>
  }

  lemma RankCap(m: u8)
    ensures Rank(m) <= 248
  {
  }

  /** Requests go 01/01, 03, 07, support pages, advertised MIDs ascending; none
      is started with less than minStartMs left; there are at most 259. */
  lemma RequestsInOrder(kind: u8, now: u32, budgetMs: u32, t: Timing, es: seq<Event>, r: Run)
    requires Reaches(kind, now, budgetMs, t, es, r)
    ensures InOrder(r.sent, r.pages, r.s.support) && InTime(r.sent, r.s) && |r.sent| <= 259
  {
    hide Reaches, Pid01Kept, Verdict, Position, Bounded, Fresh, Rank;
    ReachesInv(kind, now, budgetMs, t, es, r);
    var k := |r.sent| - 1;
    if k >= 3 + r.pages {
      assert MonitorAsked(r.sent, r.pages, k, r.s.support);
      RankCap(r.sent[k].pid.value);
    }
  }

  /** Every advertised support page was asked for, once the page behind the
      last one asked for is not advertised. */
  lemma PagesAsked(sent: seq<Req>, pages: nat, support: set<u8>)
    requires InOrder(sent, pages, support) && 1 <= pages && (pages == 8 || 0x20 * pages !in support)
    ensures forall page: u8 :: page in support && page % 0x20 == 0 ==> HasMid(sent, page)
  {
    forall page: u8 | page in support && page % 0x20 == 0 ensures HasMid(sent, page) {
      var k := 3 + page / 0x20;
      assert k < 3 + pages && sent[k].pid == Some(0x20 * (k - 3));
    }
  }

  /** COMPLETE: four reads done, every advertised MID and every advertised
      support page asked for, and nothing cut short. */
  lemma CompleteMeansAll(kind: u8, now: u32, budgetMs: u32, t: Timing, es: seq<Event>, r: Run)
    requires Reaches(kind, now, budgetMs, t, es, r) && r.s.d.flags.complete
    ensures r.s.finished && r.s.stepsDone == 4 && !r.s.d.flags.truncated && !r.s.outOfTime && !r.s.txFailed
    ensures forall mid: u8 :: mid in r.s.support && mid % 0x20 != 0 ==> HasMid(r.sent, mid)
    ensures forall page: u8 :: page in r.s.support && page % 0x20 == 0 ==> HasMid(r.sent, page)
  {
    hide Reaches, InOrder, InTime, Bounded;
    ReachesInv(kind, now, budgetMs, t, es, r);
    PagesAsked(r.sent, r.pages, r.s.support);
  }

  /** NO_RESPONSE: ECU 0 never answered 01/01; otherwise its first answer is
      what the record holds. And the record stays within its caps. */
  lemma NoResponseMeansSilence(kind: u8, now: u32, budgetMs: u32, t: Timing, es: seq<Event>, r: Run)
    requires Reaches(kind, now, budgetMs, t, es, r) && r.s.finished
    ensures r.s.d.flags.noResponse <==> r.answer.None?
    ensures r.s.d.pid01 == if r.answer.Some? then r.answer.value else [0xFF, 0xFF, 0xFF, 0xFF]
    ensures |r.s.d.stored| <= MAX_STORED && |r.s.d.pending| <= MAX_PENDING && |r.s.d.m06| <= MAX_M06
  {
    hide Reaches, InOrder, InTime;
    ReachesInv(kind, now, budgetMs, t, es, r);
  }

  // ---- it ends -----------------------------------------------------------

  /** The sequence after polls at these times and no frames. */
  function Polled(s: Seq, nows: seq<u32>): Seq
    decreases |nows|
  {
    if nows == [] then s else Polled(Poll(s, nows[0]).0, nows[1..])
  }

  lemma NotAhead(deadline: u32, now: u32)
    requires Reached(now, deadline)
    ensures Signed(Wrap(deadline - now)) <= 0
  {
  }

  /** No time past the deadline is early enough to ask again, exactly when
      minStartMs is positive as the firmware compares it. */
  lemma PastIsTooLate(s: Seq)
    ensures (forall now: u32 :: Reached(now, s.deadline) ==> TooLate(s, now)) <==> 0 < Signed(s.t.minStartMs)
  {
    assert Reached(s.deadline, s.deadline);
    assert TooLate(s, s.deadline) <==> 0 < Signed(s.t.minStartMs);
    forall now: u32 | Reached(now, s.deadline) && 0 < Signed(s.t.minStartMs) ensures TooLate(s, now) {
      NotAhead(s.deadline, now);
    }
  }

  lemma LaunchEnds(s: Seq, now: u32)
    requires TooLate(s, now)
    ensures Launch(s, now).0.finished
  {
    hide TooLate, NextMid;
  }

  lemma AdvanceSame(s: Seq)
    ensures Advance(s).deadline == s.deadline && Advance(s).t == s.t
  {
    match s.step
    case SupportStep =>
    case _ =>
  }

  lemma PollEnds(s: Seq, now: u32)
    requires Reached(now, s.deadline) && TooLate(s, now)
    requires s.fcPending == {} || s.finished
    ensures Poll(s, now).0.finished
  {
    hide Launch, Advance, Settled, Reached;
    var m := s.(inflight := false);
    AdvanceSame(m);
    LaunchEnds(Advance(m), now);
    LaunchEnds(s, now);
  }

  lemma PollDrainsFc(s: Seq, now: u32)
    requires !s.finished && s.fcPending != {} && forall i :: i in s.fcPending ==> i < RESPONDERS
    ensures var s' := Poll(s, now).0; s'.fcPending < s.fcPending && s'.deadline == s.deadline && s'.t == s.t
    ensures |Poll(s, now).0.fcPending| == |s.fcPending| - 1
  {
    var i :| i in s.fcPending;
    LeastIn(s.fcPending, 0, i);
  }

  lemma {:induction false} EndsWithin(s: Seq, nows: seq<u32>)
    requires forall i :: i in s.fcPending ==> i < RESPONDERS
    requires |nows| > |s.fcPending|
    requires forall k :: 0 <= k < |nows| ==> Reached(nows[k], s.deadline) && TooLate(s, nows[k])
    ensures Polled(s, nows).finished
    decreases |nows|
  {
    hide Poll, Reached;
    if s.fcPending == {} || s.finished {
      PollEnds(s, nows[0]);
      StaysFinished(Poll(s, nows[0]).0, nows[1..]);
    } else {
      PollDrainsFc(s, nows[0]);
      EndsWithin(Poll(s, nows[0]).0, nows[1..]);
    }
  }

  lemma {:induction false} StaysFinished(s: Seq, nows: seq<u32>)
    requires s.finished
    ensures Polled(s, nows).finished
    decreases |nows|
  {
    if nows != [] { StaysFinished(Poll(s, nows[0]).0, nows[1..]); }
  }

  lemma {:induction false} AtMost(f: set<nat>, n: nat)
    requires forall i :: i in f ==> i < n
    ensures |f| <= n
    decreases n
  {
    if n > 0 {
      var e: nat := n - 1;
      AtMost(f - {e}, e);
    } else {
      assert f == {};
    }
  }

  /** From any point of any run: nine polls past the deadline, too late to ask
      again, and no frame between them, finish the sequence. */
  lemma NinePollsFinish(kind: u8, now: u32, budgetMs: u32, t: Timing, es: seq<Event>, r: Run, nows: seq<u32>)
    requires Reaches(kind, now, budgetMs, t, es, r)
    requires |nows| == 9 && forall k :: 0 <= k < 9 ==> Reached(nows[k], r.s.deadline) && TooLate(r.s, nows[k])
    ensures Polled(r.s, nows).finished
  {
    hide Reaches, Polled, Reached, TooLate, InOrder, InTime, Pid01Kept, Position, Verdict, Fresh;
    ReachesInv(kind, now, budgetMs, t, es, r);
    AtMost(r.s.fcPending, RESPONDERS);
    EndsWithin(r.s, nows);
  }
}
