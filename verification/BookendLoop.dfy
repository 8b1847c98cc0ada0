/** The parsers and the sequencer as they run: loops over the reply, fields
    updated poll by poll. */
module BookendLoop {
  import opened Words
  import opened Options
  import opened IsoTp
  import opened Bookend

  // ---- parsers -----------------------------------------------------------

  lemma CodesGrow(ecu: u8, p: seq<u8>, i: nat, n: nat)
    requires i <= n && 2 * n + 2 <= |p|
    ensures |Codes(ecu, p, i)| <= |Codes(ecu, p, n)| && Codes(ecu, p, i) == Codes(ecu, p, n)[..|Codes(ecu, p, i)|]
  {
    if i < n { CodesGrow(ecu, p, i, n - 1); }
  }

  /** The code at place i is one too many. */
  lemma FullAt(ecu: u8, p: seq<u8>, have: seq<Dtc>, cap: nat, i: nat, n: nat)
    requires i < n && 2 * n + 2 <= |p| && CodeAt(p, i) != 0
    requires |have| + |Codes(ecu, p, i)| == cap
    ensures have + Codes(ecu, p, i) == Capped(have, Codes(ecu, p, n), cap) && |have| + |Codes(ecu, p, n)| > cap
  {
    CodesGrow(ecu, p, i, n);
    CodesGrow(ecu, p, i + 1, n);
  }

  /** The loop of bookendParseDtcs: it stops at the first code too many. */
  method ParseDtcList(have: seq<Dtc>, cap: nat, ecu: u8, p: seq<u8>) returns (out: seq<Dtc>, cut: bool)
    requires |have| <= cap && |p| >= 2
    ensures var codes := Codes(ecu, p, DtcCount(p));
            out == Capped(have, codes, cap) && (cut <==> |have| + |codes| > cap)
  {
    var count := p[1];
    if count > (|p| - 2) / 2 { count := (|p| - 2) / 2; }
    out, cut := have, false;
    for i := 0 to count
      invariant out == have + Codes(ecu, p, i) && |out| <= cap
    {
      var dtc := Word(p[2 + 2 * i], p[3 + 2 * i]);
      if dtc != 0 {
        if |out| >= cap {
          FullAt(ecu, p, have, cap, i, count);
          return out, true;
        }
        out := out + [Dtc(ecu, dtc)];
      }
    }
  }

  lemma MonitorsGrow(ecu: u8, p: seq<u8>, i: nat, n: nat)
    requires i <= n && 9 * n + 1 <= |p|
    ensures Monitors(ecu, p, i) == Monitors(ecu, p, n)[..i]
  {
    if i < n { MonitorsGrow(ecu, p, i, n - 1); }
  }

  /** The loop of bookendParseM06Results. */
  method ParseMonitorList(have: seq<Monitor>, ecu: u8, p: seq<u8>) returns (out: seq<Monitor>, cut: bool)
    requires |have| <= MAX_M06 && |p| >= 1
    ensures var more := Monitors(ecu, p, (|p| - 1) / 9);
            out == Capped(have, more, MAX_M06) && (cut <==> |have| + |more| > MAX_M06)
  {
    out, cut := have, false;
    var o := 1;
    ghost var i := 0;
    ghost var n := (|p| - 1) / 9;
    while o + 9 <= |p|
      invariant i <= n && o == 9 * i + 1 && out == have + Monitors(ecu, p, i) && |out| <= MAX_M06
    {
      MonitorsGrow(ecu, p, i, n);
      if |out| >= MAX_M06 { return out, true; }
      out := out + [MonitorAt(ecu, p, o)];
      o, i := o + 9, i + 1;
    }
  }

  /** The loop of bookendParseM06Support. */
  method ParseSupport(base: u8, p: seq<u8>, supported: set<u8>) returns (out: set<u8>)
    ensures out == supported + SupportOf(base, p)
  {
    hide TopBit;
    out := supported;
    if |p| < 6 || p[0] != 0x46 || p[1] != base { return; }
    for bit := 0 to 32
      invariant forall m: u8 :: m in out <==> m in supported || (base < m <= base + bit && Advertised(base, p, m))
    {
      var mid := base + 1 + bit;
      if mid <= 0xFF && TopBit(p[2 + bit / 8], bit % 8) { out := out + {mid}; }
    }
  }

  // ---- sequencer ---------------------------------------------------------

  class Sequencer {
    var d: Data
    var t: Timing
    var deadline: u32
    var step: Bookend.Step
    var inflight: bool
    var reqMode: u8
    var reqPid: u8
    var sentMs: u32
    var lastRxMs: u32
    var rx: seq<Rx>
    var fcPending: set<nat>
    var support: set<u8>
    var next: nat
    var base: u8
    var any: bool
    var pid01Ecu0: bool
    var stepsDone: nat
    var outOfTime: bool
    var txFailed: bool
    var finished: bool

    function State(): Seq
      reads this
    {
      Seq(d, t, deadline, step, inflight, reqMode, reqPid, sentMs, lastRxMs, rx, fcPending, support,
          next, base, any, pid01Ecu0, stepsDone, outOfTime, txFailed, finished)
    }

    predicate Sized()
      reads this
    {
      RxOk(State()) && |d.stored| <= MAX_STORED && |d.pending| <= MAX_PENDING && |d.m06| <= MAX_M06
    }

    constructor (kind: u8, now: u32, budgetMs: u32, timing: Timing)
      ensures State() == Begin(kind, now, budgetMs, timing) && Sized()
    {
      d := Data(kind, Flags(false, false, false), [0xFF, 0xFF, 0xFF, 0xFF], [], [], []);
      t, deadline := timing, Wrap(now + budgetMs);
      step, inflight, reqMode, reqPid, sentMs, lastRxMs := Pid01Step, false, 0, 0, 0, 0;
      rx, fcPending, support, next, base := NoRx(), {}, {}, 0, 0;
      any, pid01Ecu0, stepsDone, outOfTime, txFailed, finished := false, false, 0, false, false, false;
    }

    method Finish()
      modifies this
      ensures State() == Bookend.Finish(old(State()))
    {
      var flags := d.flags;
      if !pid01Ecu0 { flags := flags.(noResponse := true); }
      if outOfTime || txFailed { flags := flags.(truncated := true); }
      if stepsDone == 4 && !flags.truncated { flags := flags.(complete := true); }
      d, finished := d.(flags := flags), true;
    }

    method Count(to: Bookend.Step)
      modifies this
      ensures State() == old(State()).(stepsDone := old(stepsDone) + 1, step := to)
    {
      stepsDone, step := stepsDone + 1, to;
    }

    method SetBase(b: u8)
      modifies this
      ensures State() == old(State()).(base := b)
    {
      base := b;
    }

    method StartWalk()
      modifies this
      ensures State() == old(State()).(step := MidStep, next := 1)
    {
      step, next := MidStep, 1;
    }

    method StepDone()
      modifies this
      ensures State() == Advance(old(State()))
    {
      match step
      case Pid01Step => Count(M03Step);
      case M03Step => Count(M07Step);
      case M07Step =>
        Count(SupportStep);
        SetBase(0);
      case SupportStep =>
        if base < 0xE0 && base + 0x20 in support { SetBase(base + 0x20); } else { StartWalk(); }
      case MidStep => next := reqPid + 1;
      case EndStep =>
    }

    method Ask(mode: u8, pid: Option<u8>, now: u32) returns (act: Act)
      modifies this
      ensures (State(), act) == Request(old(State()), mode, pid, now)
    {
      hide NoRx, RequestTx;
      NoteRequest(mode, if pid.Some? then pid.value else 0);
      ClearReplies(now);
      act := Send(RequestTx(mode, pid));
    }

    method NoteRequest(mode: u8, pid: u8)
      modifies this
      ensures State() == old(State()).(reqMode := mode, reqPid := pid, inflight := true)
    {
      reqMode, reqPid, inflight := mode, pid, true;
    }

    method ClearReplies(now: u32)
      modifies this
      ensures State() == old(State()).(sentMs := now, lastRxMs := now, rx := NoRx(), fcPending := {})
    {
      hide NoRx;
      sentMs, lastRxMs, rx, fcPending := now, now, NoRx(), {};
    }

    /** The deadline has come too near. */
    method GiveUp()
      modifies this
      ensures State() == Bookend.Finish(old(State()).(outOfTime := true))
    {
      hide Bookend.Finish;
      outOfTime := true;
      Finish();
    }

    /** Every MID has been asked for. */
    method EndWalk()
      modifies this
      ensures State() == Bookend.Finish(old(State()).(stepsDone := old(stepsDone) + 1, step := EndStep))
    {
      hide Bookend.Finish;
      Count(EndStep);
      Finish();
    }

    method StartNext(now: u32) returns (act: Act)
      modifies this
      ensures (State(), act) == Launch(old(State()), now)
    {
      hide NoRx, RequestTx, Request, NextMid, Bookend.Finish;
      if step == EndStep {
        Finish();
        return Done;
      }
      if TooLate(State(), now) {
        GiveUp();
        return Done;
      }
      match step
      case Pid01Step => act := Ask(0x01, Some(0x01), now);
      case M03Step => act := Ask(0x03, None, now);
      case M07Step => act := Ask(0x07, None, now);
      case SupportStep => act := Ask(0x06, Some(base), now);
      case MidStep =>
        var mid := FindMid();
        if mid > 0xFF {
          EndWalk();
          act := Done;
        } else {
          act := Ask(0x06, Some(mid), now);
        }
    }

    method FindMid() returns (mid: nat)
      ensures mid == NextMid(support, next)
    {
      mid := next;
      while mid <= 0xFF && (mid % 0x20 == 0 || mid !in support)
        invariant NextMid(support, next) == NextMid(support, mid)
      {
        mid := mid + 1;
      }
    }

    method AnyAssembling() returns (busy: bool)
      ensures busy <==> Assembling(rx)
    {
      busy := false;
      for i := 0 to |rx|
        invariant busy <==> exists k :: 0 <= k < i && rx[k].active
      {
        busy := busy || rx[i].active;
      }
    }

    /** The lowest responder owed a Flow Control. */
    method TakeFlowControl() returns (i: nat)
      requires fcPending != {} && forall k :: k in fcPending ==> k < RESPONDERS
      modifies this`fcPending
      ensures i == Least(old(fcPending), 0) && fcPending == old(fcPending) - {i}
    {
      ghost var some :| some in fcPending;
      i := 0;
      while i !in fcPending
        invariant i <= some && Least(fcPending, 0) == Least(fcPending, i)
        decreases some - i
      {
        i := i + 1;
      }
      fcPending := fcPending - {i};
    }

    /** The answer in flight has come or run out of time. */
    method Settle()
      modifies this
      ensures State() == Advance(old(State()).(inflight := false))
    {
      hide Advance;
      inflight := false;
      StepDone();
    }

    /** The deadline has passed with a request in flight. */
    method Abandon()
      modifies this
      ensures State() == Bookend.Finish(old(State()).(inflight := false, outOfTime := true))
    {
      hide Bookend.Finish;
      inflight := false;
      GiveUp();
    }

    method PollAt(now: u32) returns (act: Act)
      requires forall k :: k in fcPending ==> k < RESPONDERS
      modifies this
      ensures (State(), act) == Poll(old(State()), now)
    {
      hide Launch, Advance, Bookend.Finish, Least, FlowControlTx, Assembling;
      if finished { return Done; }
      if fcPending != {} {
        var i := TakeFlowControl();
        return Send(FlowControlTx(i));
      }
      if inflight {
        var busy := AnyAssembling();
        if (Wrap(now - lastRxMs) >= t.quietMs && !busy) || Wrap(now - sentMs) >= t.reqMaxMs {
          Settle();
        } else if Reached(now, deadline) {
          Abandon();
          return Done;
        } else {
          return Wait;
        }
      }
      act := StartNext(now);
    }

    method HandleMessage(ecu: u8, p: seq<u8>)
      requires Sized()
      modifies this
      ensures State() == Handle(old(State()), ecu, p)
    {
      hide Bookend.Told, SupportOf, Valid;
      if |p| < 1 || p[0] != (reqMode + 0x40) % 0x100 { return; }
      ToldAny(State(), ecu, p);
      NoteAny();
      TakeMessage(ecu, p);
    }

    /** A message that answers the request in flight. */
    method TakeMessage(ecu: u8, p: seq<u8>)
      requires Sized()
      modifies this
      ensures State() == old(State()).(d := d, pid01Ecu0 := pid01Ecu0, support := support)
      ensures d == Told(old(State()), ecu, p)
      ensures pid01Ecu0 == (old(pid01Ecu0) || (old(step) == Pid01Step && ecu == 0 && Pid01(p).Some?))
      ensures support == if old(step) == SupportStep then old(support) + SupportOf(old(base), p) else old(support)
    {
      hide Bookend.Told, SupportOf, Valid, Pid01;
      ToldAny(State(), ecu, p);
      if step == SupportStep { HandleSupport(p); } else { HandleData(ecu, p); }
    }

    method HandlePid01(ecu: u8, p: seq<u8>)
      requires step == Pid01Step
      modifies this
      ensures State() == old(State()).(d := d, pid01Ecu0 := old(pid01Ecu0) || (ecu == 0 && Pid01(p).Some?))
      ensures d == Told(old(State()), ecu, p)
    {
      if ecu == 0 && !pid01Ecu0 && Pid01(p).Some? { TakePid01(Pid01(p).value); }
    }

    method HandleData(ecu: u8, p: seq<u8>)
      requires Sized() && step != SupportStep
      modifies this
      ensures State() == old(State()).(d := d, pid01Ecu0 := pid01Ecu0) && d == Told(old(State()), ecu, p)
      ensures pid01Ecu0 == (old(pid01Ecu0) || (old(step) == Pid01Step && ecu == 0 && Pid01(p).Some?))
    {
      hide ParseDtcs, ParseM06Results, Valid, Pid01;
      if step == Pid01Step {
        HandlePid01(ecu, p);
      } else {
        HandleLists(ecu, p);
      }
    }

    method HandleLists(ecu: u8, p: seq<u8>)
      requires Sized() && step != Pid01Step
      modifies this
      ensures State() == old(State()).(d := d) && d == Told(old(State()), ecu, p)
    {
      hide ParseDtcs, ParseM06Results, Valid, RxOk;
      if step == M03Step || step == M07Step {
        HandleDtcs(ecu, step == M07Step, p);
      } else if step == MidStep && |p| >= 2 && p[1] == reqPid {
        HandleMonitors(ecu, p);
      }
    }

    method NoteAny()
      modifies this
      ensures State() == old(State()).(any := true)
    {
      any := true;
    }

    method TakePid01(bytes: seq<u8>)
      modifies this
      ensures State() == old(State()).(d := old(d).(pid01 := bytes), pid01Ecu0 := true)
    {
      d, pid01Ecu0 := d.(pid01 := bytes), true;
    }

    method HandleSupport(p: seq<u8>)
      modifies this
      ensures State() == old(State()).(support := old(support) + SupportOf(old(base), p))
    {
      hide SupportOf;
      support := ParseSupport(base, p, support);
    }

    method SetData(to: Data)
      modifies this
      ensures State() == old(State()).(d := d) && d == to
    {
      d := to;
    }

    method HandleMonitors(ecu: u8, p: seq<u8>)
      requires |d.m06| <= MAX_M06
      modifies this
      ensures State() == old(State()).(d := d) && d == ParseM06Results(old(d), ecu, p)
    {
      hide Monitors, Capped;
      if |p| < 10 || p[0] != 0x46 { return; }
      var list, cut := ParseMonitorList(d.m06, ecu, p);
      SetData(d.(m06 := list, flags := Shortened(d.flags, cut)));
    }

    method HandleDtcs(ecu: u8, pending: bool, p: seq<u8>)
      requires |d.stored| <= MAX_STORED && |d.pending| <= MAX_PENDING
      modifies this
      ensures State() == old(State()).(d := d) && d == ParseDtcs(old(d), ecu, pending, p)
    {
      hide Codes, Capped;
      if |p| < 2 || p[0] != (if pending then 0x47 else 0x43) { return; }
      if pending { AddPending(ecu, p); } else { AddStored(ecu, p); }
    }

    method AddPending(ecu: u8, p: seq<u8>)
      requires |d.pending| <= MAX_PENDING && |p| >= 2 && p[0] == 0x47
      modifies this
      ensures State() == old(State()).(d := d) && d == ParseDtcs(old(d), ecu, true, p)
    {
      hide Codes, Capped;
      var list, cut := ParseDtcList(d.pending, MAX_PENDING, ecu, p);
      SetData(d.(pending := list, flags := Shortened(d.flags, cut)));
    }

    method AddStored(ecu: u8, p: seq<u8>)
      requires |d.stored| <= MAX_STORED && |p| >= 2 && p[0] == 0x43
      modifies this
      ensures State() == old(State()).(d := d) && d == ParseDtcs(old(d), ecu, false, p)
    {
      hide Codes, Capped;
      var list, cut := ParseDtcList(d.stored, MAX_STORED, ecu, p);
      SetData(d.(stored := list, flags := Shortened(d.flags, cut)));
    }

    method TakeReply(i: nat, r: Rx, now: u32)
      requires i < |rx|
      modifies this
      ensures State() == old(State()).(lastRxMs := now, rx := old(rx)[i := r])
    {
      lastRxMs, rx := now, rx[i := r];
    }

    method OweFlowControl(i: nat)
      modifies this
      ensures State() == old(State()).(fcPending := old(fcPending) + {i})
    {
      fcPending := fcPending + {i};
    }

    method OnFrameAt(id: nat, data: seq<u8>, now: u32)
      requires Sized()
      modifies this
      ensures State() == OnFrame(old(State()), id, data, now)
    {
      hide Handle, Feed, Message;
      if !inflight || finished || id < 0x7E8 || id > 0x7EF { return; }
      var i := id - 0x7E8;
      assert Valid(rx[i]);
      var (r, ev) := Feed(rx[i], data);
      TakeReply(i, r, now);
      match ev
      case NeedFc => OweFlowControl(i);
      case Complete => HandleMessage(i, Message(r));
      case _ =>
    }

    method TxFailedNow()
      modifies this
      ensures State() == TxFailed(old(State()))
    {
      if finished { return; }
      inflight, txFailed := false, true;
      Finish();
    }
  }

  lemma ToldAny(s: Seq, ecu: u8, p: seq<u8>)
    ensures Told(s.(any := true), ecu, p) == Told(s, ecu, p)
    ensures s.step == SupportStep ==> Told(s, ecu, p) == s.d
  {
  }
}
