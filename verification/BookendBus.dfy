/** The bookend on the bus: every frame it sends, which First Frames it answers,
    how long it listens before it asks again, and why a record is cut short. */
module BookendBus {
  import opened Words
  import opened Options
  import opened IsoTp
  import opened Bookend
  import opened BookendRuns

  // ---- frames as their bytes say -----------------------------------------

  /** A request to all ECUs: how many bytes count, the mode, the PID if there is
      one, and 0x55 up to eight. */
  predicate IsRequest(tx: Tx) {
    && tx.id == 0x7DF && |tx.data| == 8 && tx.data[3..] == [0x55, 0x55, 0x55, 0x55, 0x55]
    && (tx.data[0] == 0x02 || (tx.data[0] == 0x01 && tx.data[2] == 0x55))
  }

  /** Clear to send, no block limit, no pause, to the ECU that answers as f. */
  predicate IsFlowControl(tx: Tx, f: nat) {
    && 0x7E8 <= f <= 0x7EF && tx.id == 0x7E0 + (f - 0x7E8)
    && tx.data == [0x30, 0x00, 0x00, 0x55, 0x55, 0x55, 0x55, 0x55]
  }

  /** A First Frame of a message of 8 to 160 bytes. */
  predicate BeginsMessage(data: seq<u8>) {
    |data| >= 8 && var hi: int, lo: int := data[0], data[1]; 0x10 <= hi <= 0x1F && 8 <= (hi - 0x10) * 256 + lo <= 160
  }

  // ---- what was seen on the bus ------------------------------------------

  /** The sequencer, and what the bus saw: whose First Frames still wait for
      Flow Control, when the last request went out, when it or a frame was last
      heard, whether a poll came too late to ask, and whether the bus refused a
      frame. */
  datatype Bus = Bus(s: Seq, owed: set<nat>, asked: Option<u32>, heard: u32, late: bool, refused: bool)

  /** A poll at now has less than minStartMs left, or nothing. */
  predicate IsLate(s: Seq, now: u32) {
    Signed(Wrap(s.deadline - now)) < Signed(s.t.minStartMs) || Signed(Wrap(now - s.deadline)) >= 0
  }

  function Sent(b: Bus, s: Seq, act: Act, now: u32): Bus {
    if !act.Send? then b.(s := s)
    else if act.tx.id == 0x7DF then b.(s := s, owed := {}, asked := Some(now), heard := now)
    else b.(s := s, owed := b.owed - {act.tx.id + 8})
  }

  function Next(b: Bus, e: BookendRuns.Event): Bus
    requires RxOk(b.s)
  {
    match e
    case PollAt(now) =>
      var (s, act) := Poll(b.s, now);
      Sent(b, s, act, now).(late := b.late || IsLate(b.s, now))
    case FrameAt(id, data, now) =>
      var s := OnFrame(b.s, id, data, now);
      if !b.s.inflight || b.s.finished || !(0x7E8 <= id <= 0x7EF) then b.(s := s)
      else b.(s := s, heard := now, owed := if BeginsMessage(data) then b.owed + {id} else b.owed)
    case TxRefused => b.(s := TxFailed(b.s), refused := true)
  }

  lemma LaunchRx(s: Seq, now: u32)
    requires RxOk(s)
    ensures RxOk(Launch(s, now).0)
  {
    hide NextMid, TooLate, Valid;
    assert forall i :: 0 <= i < RESPONDERS ==> Valid(NoRx()[i]);
  }

  lemma AdvanceRx(s: Seq)
    ensures Advance(s).rx == s.rx
  {
  }

  lemma HandleRx(s: Seq, ecu: u8, p: seq<u8>)
    ensures Handle(s, ecu, p).rx == s.rx
  {
    hide ParseDtcs, ParseM06Results, SupportOf, Pid01;
  }

  lemma PollRx(s: Seq, now: u32)
    requires RxOk(s)
    ensures RxOk(Poll(s, now).0)
  {
    hide Launch, Advance, Settled, Reached, Least, Valid, FlowControlTx;
    var m := s.(inflight := false);
    AdvanceRx(m);
    LaunchRx(Advance(m), now);
    LaunchRx(s, now);
  }

  lemma FrameRx(s: Seq, id: nat, data: seq<u8>, now: u32)
    requires RxOk(s)
    ensures RxOk(OnFrame(s, id, data, now))
  {
    hide Handle, Valid, Feed, Message;
    if ForUs(s, id) {
      var i := id - 0x7E8;
      assert Valid(s.rx[i]);
      var (r, ev) := Feed(s.rx[i], data);
      HandleRx(s.(lastRxMs := now, rx := s.rx[i := r]), i, Message(r));
    }
  }

  lemma NextRx(b: Bus, e: BookendRuns.Event)
    requires RxOk(b.s)
    ensures RxOk(Next(b, e).s)
  {
    hide Poll, OnFrame, RxOk, Sent, BeginsMessage, IsLate;
    match e
    case PollAt(now) =>
      PollRx(b.s, now);
      SentState(b, Poll(b.s, now).0, Poll(b.s, now).1, now);
    case FrameAt(id, data, now) => FrameRx(b.s, id, data, now);
    case TxRefused => FailedRx(b.s);
  }

  lemma FailedRx(s: Seq)
    ensures TxFailed(s).rx == s.rx
    ensures RxOk(s) ==> RxOk(TxFailed(s))
  {
    hide Valid;
  }

  function Start(kind: u8, now: u32, budgetMs: u32, t: Timing): Bus {
    Bus(Begin(kind, now, budgetMs, t), {}, None, 0, false, false)
  }

  /** The bus after any polls, frames and refusals. */
  function After(kind: u8, now: u32, budgetMs: u32, t: Timing, es: seq<BookendRuns.Event>): (b: Bus)
    ensures RxOk(b.s)
    decreases |es|
  {
    if es == [] then Start(kind, now, budgetMs, t)
    else
      var b := After(kind, now, budgetMs, t, es[..|es| - 1]);
      NextRx(b, es[|es| - 1]);
      Next(b, es[|es| - 1])
  }

  // ---- invariant ---------------------------------------------------------

  /** Flow Control is pending exactly for the First Frames that wait for it. */
  ghost predicate OwedIs(s: Seq, owed: set<nat>) {
    && (forall f :: f in owed ==> 0x7E8 <= f <= 0x7EF)
    && (forall i :: i in s.fcPending <==> 0x7E8 + i in owed)
  }

  /** The times of the request in flight are those seen on the bus. */
  predicate TimesAre(b: Bus) {
    && (!b.s.finished ==> (b.s.inflight <==> b.asked.Some?))
    && (b.s.inflight ==> b.asked == Some(b.s.sentMs) && b.s.lastRxMs == b.heard)
  }

  predicate ListFull(d: Data) { |d.stored| >= 32 || |d.pending| >= 32 || |d.m06| >= 64 }

  /** Nothing is cut short without a reason. */
  predicate Reasons(b: Bus) {
    var s := b.s;
    if !s.finished then
      !s.outOfTime && !s.txFailed && !s.d.flags.complete && (s.d.flags.truncated ==> ListFull(s.d)) && s.step != EndStep
      && s.stepsDone == Reads(s.step)
    else
      && (s.d.flags.truncated ==> b.late || b.refused || ListFull(s.d))
      && (s.stepsDone == 4 || b.late || b.refused)
      && (s.d.flags.complete <==> s.stepsDone == 4 && !s.d.flags.truncated)
      && (s.txFailed ==> s.d.flags.truncated)
  }

  ghost predicate Inv(b: Bus) { OwedIs(b.s, b.owed) && TimesAre(b) && Reasons(b) }

  // ---- steps -------------------------------------------------------------

  lemma FlowControlBytes(i: nat)
    requires i < RESPONDERS
    ensures IsFlowControl(FlowControlTx(i), 0x7E8 + i)
    ensures FlowControlTx(i).id + 8 == 0x7E8 + i && FlowControlTx(i).id != 0x7DF
  {
  }

  lemma RequestBytes(mode: u8, pid: Option<u8>)
    ensures IsRequest(RequestTx(mode, pid)) && RequestTx(mode, pid).id == 0x7DF
  {
    assert RequestTx(mode, pid).data[3..] == [0x55, 0x55, 0x55, 0x55, 0x55];
  }

  lemma FeedBegins(r: Rx, data: seq<u8>)
    requires Valid(r)
    ensures Feed(r, data).1 == NeedFc <==> BeginsMessage(data)
  {
    hide Copied;
  }

  /** The request loop gives up, is done, or asks. */
  lemma LaunchCases(s: Seq, now: u32) returns (mode: u8, pid: Option<u8>)
    requires s.step != EndStep
    ensures Launch(s, now) == if TooLate(s, now) then (Finish(s.(outOfTime := true)), Done)
                              else if s.step == MidStep && NextMid(s.support, s.next) > 0xFF then
                                (Finish(s.(stepsDone := s.stepsDone + 1, step := EndStep)), Done)
                              else Request(s, mode, pid, now)
  {
    hide Finish, Request, TooLate;
    mode, pid := 0x06, None;
    match s.step
    case Pid01Step => mode, pid := 0x01, Some(0x01);
    case M03Step => mode := 0x03;
    case M07Step => mode := 0x07;
    case SupportStep => pid := Some(s.base);
    case MidStep => if NextMid(s.support, s.next) <= 0xFF { pid := Some(NextMid(s.support, s.next)); }
  }

  lemma RequestKeeps(b: Bus, now: u32, mode: u8, pid: Option<u8>)
    requires Reasons(b) && !b.s.finished
    ensures var (s, act) := Request(b.s, mode, pid, now);
            Inv(Sent(b, s, act, now)) && act.Send? && IsRequest(act.tx) && act.tx.id == 0x7DF && !s.finished
  {
    hide IsRequest, RequestTx, ListFull;
    RequestBytes(mode, pid);
  }

  lemma GiveUpKeeps(b: Bus)
    requires Reasons(b) && !b.s.finished && !b.s.inflight && b.s.fcPending == {} && b.owed == {} && b.late
    ensures Inv(b.(s := Finish(b.s.(outOfTime := true))))
  {
  }

  lemma WalkEnds(b: Bus)
    requires Reasons(b) && !b.s.finished && !b.s.inflight && b.s.fcPending == {} && b.owed == {} && b.s.step == MidStep
    ensures Inv(b.(s := Finish(b.s.(stepsDone := b.s.stepsDone + 1, step := EndStep))))
  {
  }

  /** With nothing in flight and nobody owed Flow Control. */
  lemma LaunchKeeps(b: Bus, now: u32)
    requires Reasons(b) && !b.s.finished && !b.s.inflight && b.s.fcPending == {} && b.owed == {}
    requires IsLate(b.s, now) ==> b.late
    ensures var (s, act) := Launch(b.s, now);
            && Inv(Sent(b, s, act, now)) && (act.Send? ==> IsRequest(act.tx) && act.tx.id == 0x7DF)
            && (act == Done <==> s.finished)
            && (act.Send? ==> Signed(Wrap(b.s.deadline - now)) >= Signed(b.s.t.minStartMs))
  {
    hide IsRequest, NextMid, Launch, Request, Finish, Inv, Sent;
    NotEnded(b);
    var mode, pid := LaunchCases(b.s, now);
    var (s, act) := Launch(b.s, now);
    if TooLate(b.s, now) {
      GiveUpKeeps(b);
      Finishes(b.s.(outOfTime := true));
      NothingSent(b, s, now);
    } else if b.s.step == MidStep && NextMid(b.s.support, b.s.next) > 0xFF {
      WalkEnds(b);
      Finishes(b.s.(stepsDone := b.s.stepsDone + 1, step := EndStep));
      NothingSent(b, s, now);
    } else {
      RequestKeeps(b, now, mode, pid);
    }
  }

  lemma NotEnded(b: Bus)
    requires Reasons(b) && !b.s.finished
    ensures b.s.step != EndStep
  {
  }

  lemma AdvanceKeeps(b: Bus, s: Seq)
    requires Reasons(b) && !b.s.finished && s == b.s.(inflight := false)
    ensures Reasons(b.(s := Advance(s)))
    ensures var a := Advance(s); !a.finished && !a.inflight && a.fcPending == s.fcPending && SameClock(s, a)
  {
    hide ListFull;
  }

  lemma FlowControlKeeps(b: Bus, i: nat, s: Seq, now: u32)
    requires Inv(b) && !b.s.finished && i in b.s.fcPending && s == b.s.(fcPending := b.s.fcPending - {i})
    ensures i < RESPONDERS
    ensures var c := Sent(b, s, Send(FlowControlTx(i)), now); Inv(c) && c.owed == b.owed - {0x7E8 + i}
  {
    hide ListFull, FlowControlTx;
    assert 0x7E8 + i in b.owed;
    FlowControlBytes(i);
    var c := Sent(b, s, Send(FlowControlTx(i)), now);
    assert c.owed == b.owed - {0x7E8 + i};
  }

  lemma CutOffKeeps(b: Bus)
    requires Inv(b) && !b.s.finished && b.late
    ensures Inv(b.(s := Finish(b.s.(inflight := false, outOfTime := true))))
  {
    hide ListFull;
  }

  /** What a poll sends: Flow Control to one that waits for it, while one does;
      otherwise at most a request, and that only once the answer to the last
      has had its time and minStartMs are left. */
  predicate PollOk(b: Bus, now: u32, act: Act, after: Bus) {
    if b.s.finished then act == Done && after.s == b.s && after.owed == b.owed
    else if b.owed != {} then
      act.Send? && exists f :: f in b.owed && IsFlowControl(act.tx, f) && after.owed == b.owed - {f}
    else
      && (act.Send? ==>
            && IsRequest(act.tx) && (b.asked.Some? ==> HasHadItsTime(b, now))
            && Signed(Wrap(b.s.deadline - now)) >= Signed(b.s.t.minStartMs))
      && (act == Done <==> after.s.finished)
  }

  /** quietMs without a frame and no message half received, or reqMaxMs since
      the request. */
  predicate HasHadItsTime(b: Bus, now: u32)
    requires b.asked.Some?
  {
    || (Wrap(now - b.heard) >= b.s.t.quietMs && forall i :: 0 <= i < |b.s.rx| ==> !b.s.rx[i].active)
    || Wrap(now - b.asked.value) >= b.s.t.reqMaxMs
  }

  lemma LeastOwed(b: Bus)
    requires OwedIs(b.s, b.owed)
    ensures b.s.fcPending == {} <==> b.owed == {}
    ensures b.s.fcPending != {} ==> Least(b.s.fcPending, 0) in b.s.fcPending
  {
    if b.owed != {} {
      var f :| f in b.owed;
      assert f - 0x7E8 in b.s.fcPending;
    }
    if b.s.fcPending != {} {
      var i :| i in b.s.fcPending;
      assert 0x7E8 + i in b.owed;
      LeastIn(b.s.fcPending, 0, i);
    }
  }

  /** A request in flight: it has had its time, or the deadline has come, or
      the poll waits. */
  lemma InFlightKeeps(b: Bus, now: u32)
    requires Inv(b) && !b.s.finished && b.s.inflight && b.s.fcPending == {} && b.owed == {}
    requires IsLate(b.s, now) ==> b.late
    ensures var (s, act) := Poll(b.s, now);
            && Inv(Sent(b, s, act, now)) && (act == Done <==> s.finished)
            && (act.Send? ==>
                  && IsRequest(act.tx) && b.asked.Some? && HasHadItsTime(b, now)
                  && Signed(Wrap(b.s.deadline - now)) >= Signed(b.s.t.minStartMs))
  {
    hide Launch, Advance, Finish, Reasons, IsRequest, Sent;
    var s := b.s.(inflight := false);
    var a := Advance(s);
    if Settled(b.s, now) {
      AdvanceKeeps(b, s);
      LaunchKeeps(b.(s := a), now);
      SentFrom(b, a, now);
    } else if Reached(now, b.s.deadline) {
      CutOffKeeps(b);
      NothingSent(b, Poll(b.s, now).0, now);
      Finishes(b.s.(inflight := false, outOfTime := true));
    } else {
      NothingSent(b, b.s, now);
    }
  }

  lemma Finishes(s: Seq)
    ensures Finish(s).finished
  {
  }

  lemma NothingSent(b: Bus, s: Seq, now: u32)
    ensures Sent(b, s, Done, now) == Sent(b, s, Wait, now) == b.(s := s)
  {
  }

  lemma SentFrom(b: Bus, a: Seq, now: u32)
    ensures var (s, act) := Launch(a, now); Sent(b.(s := a), s, act, now) == Sent(b, s, act, now)
  {
    hide Launch;
  }

  /** The bus with the mark of a late poll at now. */
  function Marked(b: Bus, now: u32): Bus { b.(late := b.late || IsLate(b.s, now)) }

  lemma MarkedKeeps(b: Bus, now: u32)
    requires Inv(b)
    ensures Inv(Marked(b, now)) && (IsLate(b.s, now) ==> Marked(b, now).late)
    ensures Marked(b, now) == b.(late := Marked(b, now).late)
  {
    hide ListFull, OwedIs, IsLate;
  }

  lemma PollIs(b: Bus, now: u32)
    requires RxOk(b.s)
    ensures var (s, act) := Poll(b.s, now); Next(b, PollAt(now)) == Sent(Marked(b, now), s, act, now)
  {
    hide Poll, IsLate, RxOk;
  }

  lemma PollOwed(b: Bus, now: u32)
    requires Inv(b) && RxOk(b.s) && !b.s.finished && b.owed != {}
    ensures var c := Next(b, PollAt(now)); Inv(c) && PollOk(b, now, Poll(b.s, now).1, c)
  {
    hide Reasons, IsFlowControl, FlowControlTx, Least, RxOk, Sent, Next, Marked;
    MarkedKeeps(b, now);
    PollIs(b, now);
    LeastOwed(b);
    var i := Least(b.s.fcPending, 0);
    FlowControlKeeps(Marked(b, now), i, Poll(b.s, now).0, now);
    FlowControlBytes(i);
    assert 0x7E8 + i in b.owed;
  }

  lemma PollAsks(b: Bus, now: u32)
    requires Inv(b) && RxOk(b.s) && !b.s.finished && b.owed == {}
    ensures var c := Next(b, PollAt(now)); Inv(c) && PollOk(b, now, Poll(b.s, now).1, c)
  {
    hide Launch, Advance, Finish, Reasons, IsRequest, RxOk, Sent, Next, Marked;
    MarkedKeeps(b, now);
    PollIs(b, now);
    LeastOwed(b);
    var l := Marked(b, now);
    if b.s.inflight { InFlightKeeps(l, now); } else { LaunchKeeps(l, now); }
    SentState(l, Poll(b.s, now).0, Poll(b.s, now).1, now);
  }

  lemma PollKeeps(b: Bus, now: u32)
    requires Inv(b) && RxOk(b.s)
    ensures var c := Next(b, PollAt(now)); Inv(c) && PollOk(b, now, Poll(b.s, now).1, c)
  {
    hide Next, Sent, Marked, Inv, RxOk, Launch, Advance;
    if b.s.finished {
      MarkedKeeps(b, now);
      PollIs(b, now);
      NothingSent(Marked(b, now), b.s, now);
    } else if b.owed != {} {
      PollOwed(b, now);
    } else {
      PollAsks(b, now);
    }
  }

  lemma SentState(b: Bus, s: Seq, act: Act, now: u32)
    ensures Sent(b, s, act, now).s == s
  {
  }

  // ---- frames ------------------------------------------------------------

  /** A message leaves times, Flow Control and the place in the walk alone, and
      shortens no list that is not full. */
  lemma HandleSame(s: Seq, ecu: u8, p: seq<u8>)
    requires !s.finished && !s.d.flags.complete && (s.d.flags.truncated ==> ListFull(s.d))
    ensures var r := Handle(s, ecu, p);
            && r.rx == s.rx && r.fcPending == s.fcPending && r.inflight == s.inflight
            && r.sentMs == s.sentMs && r.lastRxMs == s.lastRxMs
            && !r.finished && r.outOfTime == s.outOfTime && r.txFailed == s.txFailed && r.step == s.step
            && r.stepsDone == s.stepsDone && !r.d.flags.complete && (r.d.flags.truncated ==> ListFull(r.d))
  {
    hide ParseDtcs, ParseM06Results, SupportOf, Pid01, ListFull;
    HandlePlace(s, ecu, p);
    match s.step
    case Pid01Step => FullSame(s.d, Pid01(p));
    case M03Step => DtcsFull(s.d, ecu, false, p);
    case M07Step => DtcsFull(s.d, ecu, true, p);
    case MidStep => MonitorsFull(s.d, ecu, p);
    case _ =>
  }

  lemma HandlePlace(s: Seq, ecu: u8, p: seq<u8>)
    ensures var r := Handle(s, ecu, p);
            r == s.(any := r.any, d := r.d, pid01Ecu0 := r.pid01Ecu0, support := r.support)
    ensures var d := Handle(s, ecu, p).d;
            || d == s.d || (s.step == Pid01Step && Pid01(p).Some? && d == s.d.(pid01 := Pid01(p).value))
            || (s.step == M03Step && d == ParseDtcs(s.d, ecu, false, p))
            || (s.step == M07Step && d == ParseDtcs(s.d, ecu, true, p))
            || (s.step == MidStep && d == ParseM06Results(s.d, ecu, p))
  {
    hide ParseDtcs, ParseM06Results, SupportOf, Pid01;
  }

  lemma FullSame(d: Data, answer: Option<seq<u8>>)
    ensures answer.Some? ==> (ListFull(d.(pid01 := answer.value)) <==> ListFull(d))
  {
  }

  lemma DtcsFull(d: Data, ecu: u8, pending: bool, p: seq<u8>)
    requires d.flags.truncated ==> ListFull(d)
    ensures var e := ParseDtcs(d, ecu, pending, p);
            e.flags.complete == d.flags.complete && (e.flags.truncated ==> ListFull(e))
  {
    hide Codes;
  }

  lemma MonitorsFull(d: Data, ecu: u8, p: seq<u8>)
    requires d.flags.truncated ==> ListFull(d)
    ensures var e := ParseM06Results(d, ecu, p);
            e.flags.complete == d.flags.complete && (e.flags.truncated ==> ListFull(e))
  {
    hide Monitors;
  }

  lemma FrameKeeps(b: Bus, id: nat, data: seq<u8>, now: u32)
    requires Inv(b) && RxOk(b.s)
    ensures Inv(Next(b, FrameAt(id, data, now)))
  {
    hide ListFull, Handle, Feed, Message, BeginsMessage, Valid;
    if ForUs(b.s, id) {
      var i := id - 0x7E8;
      assert Valid(b.s.rx[i]);
      FeedBegins(b.s.rx[i], data);
      var (r, ev) := Feed(b.s.rx[i], data);
      HandleSame(b.s.(lastRxMs := now, rx := b.s.rx[i := r]), i, Message(r));
    }
  }

  lemma TxRefusedKeeps(b: Bus)
    requires Inv(b) && RxOk(b.s)
    ensures var c := Next(b, TxRefused);
            Inv(c) && c.s.finished && (!b.s.finished ==> c.s.d.flags.truncated && !c.s.d.flags.complete)
  {
    hide ListFull;
  }

  // ---- every run ---------------------------------------------------------

  lemma StartInv(kind: u8, now: u32, budgetMs: u32, t: Timing)
    ensures Inv(Start(kind, now, budgetMs, t))
  {
  }

  lemma {:induction false} RunKeeps(kind: u8, now: u32, budgetMs: u32, t: Timing, es: seq<BookendRuns.Event>)
    ensures Inv(After(kind, now, budgetMs, t, es))
    decreases |es|
  {
    hide Inv, Next, RxOk;
    if es == [] {
      StartInv(kind, now, budgetMs, t);
    } else {
      var b := After(kind, now, budgetMs, t, es[..|es| - 1]);
      RunKeeps(kind, now, budgetMs, t, es[..|es| - 1]);
      match es[|es| - 1]
      case PollAt(at) => PollKeeps(b, at);
      case FrameAt(id, data, at) => FrameKeeps(b, id, data, at);
      case TxRefused => TxRefusedKeeps(b);
    }
  }

  /** At every point of every run, a poll sends Flow Control to one that waits
      for it while one does; otherwise at most a request, and only once the
      answer to the last one has had its time. */
  lemma EveryPoll(kind: u8, now: u32, budgetMs: u32, t: Timing, es: seq<BookendRuns.Event>, at: u32)
    ensures var b := After(kind, now, budgetMs, t, es);
            PollOk(b, at, Poll(b.s, at).1, Next(b, PollAt(at)))
  {
    hide After, Inv, Poll, PollOk, Next;
    RunKeeps(kind, now, budgetMs, t, es);
    PollKeeps(After(kind, now, budgetMs, t, es), at);
  }

  /** A finished record is cut short only for a late poll, a refused frame or a
      full list; and without any of these it is complete. */
  lemma WhyCutShort(kind: u8, now: u32, budgetMs: u32, t: Timing, es: seq<BookendRuns.Event>)
    ensures var b := After(kind, now, budgetMs, t, es);
            b.s.finished ==>
              && (b.s.d.flags.truncated ==> b.late || b.refused || ListFull(b.s.d))
              && (!b.late && !b.refused && !ListFull(b.s.d) ==> b.s.d.flags.complete)
              && (b.s.d.flags.complete ==> !b.s.d.flags.truncated)
  {
    hide After, OwedIs, TimesAre, ListFull;
    RunKeeps(kind, now, budgetMs, t, es);
  }

  // ---- each First Frame is answered once ---------------------------------

  /** What polls at these times send, with no frame between them. */
  function SentBy(b: Bus, nows: seq<u32>): (acts: seq<Act>)
    requires RxOk(b.s)
    ensures |acts| == |nows|
    decreases |nows|
  {
    if nows == [] then []
    else
      NextRx(b, PollAt(nows[0]));
      [Poll(b.s, nows[0]).1] + SentBy(Next(b, PollAt(nows[0])), nows[1..])
  }

  predicate Answers(act: Act, f: nat) { act.Send? && IsFlowControl(act.tx, f) }

  lemma OneAddress(act: Act, f: nat, g: nat)
    requires Answers(act, f) && Answers(act, g)
    ensures f == g
  {
  }

  /** As many polls as wait for Flow Control: each gets it, and once. */
  lemma {:induction false} EachOnce(b: Bus, nows: seq<u32>, f: nat)
    requires Inv(b) && RxOk(b.s) && !b.s.finished && |nows| == |b.owed|
    ensures f in b.owed ==>
              exists k :: 0 <= k < |nows| && Answers(SentBy(b, nows)[k], f)
                          && forall j :: 0 <= j < |nows| && Answers(SentBy(b, nows)[j], f) ==> j == k
    ensures f !in b.owed ==> forall j :: 0 <= j < |nows| ==> !Answers(SentBy(b, nows)[j], f)
    decreases |nows|
  {
    hide Inv, Next, Poll, RxOk, IsFlowControl;
    if nows != [] {
      var c, act := Next(b, PollAt(nows[0])), Poll(b.s, nows[0]).1;
      NextRx(b, PollAt(nows[0]));
      PollKeeps(b, nows[0]);
      PollOwed(b, nows[0]);
      var g :| g in b.owed && IsFlowControl(act.tx, g) && c.owed == b.owed - {g};
      StillGoing(b, nows[0]);
      EachOnce(c, nows[1..], f);
      var acts, later := SentBy(b, nows), SentBy(c, nows[1..]);
      assert acts[0] == act && forall j :: 0 < j < |nows| ==> acts[j] == later[j - 1];
      if Answers(act, f) { OneAddress(act, f, g); }
      if f in b.owed && f != g {
        var k :| 0 <= k < |nows[1..]| && Answers(later[k], f)
                 && forall j :: 0 <= j < |nows[1..]| && Answers(later[j], f) ==> j == k;
        assert acts[k + 1] == later[k];
        forall j | 0 <= j < |nows| && Answers(acts[j], f) ensures j == k + 1 {
          if j > 0 { assert acts[j] == later[j - 1]; }
        }
      }
      if f == g {
        assert forall j :: 0 <= j < |nows| && Answers(acts[j], f) ==> j == 0;
      }
    } else {
      assert b.owed == {};
    }
  }

  /** Flow Control does not end the sequence. */
  lemma StillGoing(b: Bus, now: u32)
    requires Inv(b) && RxOk(b.s) && !b.s.finished && b.owed != {}
    ensures !Next(b, PollAt(now)).s.finished
  {
    hide Reasons, TimesAre, Least, FlowControlTx, RxOk, IsLate;
    LeastOwed(b);
  }
}
