/** Trip bookends: the reply parsers and the time-budgeted sequencer that asks
    an ECU for Mode 01, 03, 07 and every supported Mode 06 monitor. */
module Bookend {
  import opened Words
  import opened Options
  import opened IsoTp

  const MAX_STORED := 32
  const MAX_PENDING := 32
  const MAX_M06 := 64
  const RESPONDERS := 8

  datatype Dtc = Dtc(ecu: u8, code: u16)

  datatype Monitor = Monitor(ecu: u8, mid: u8, tid: u8, uasid: u8, value: u16, min: u16, max: u16)

  datatype Flags = Flags(complete: bool, truncated: bool, noResponse: bool)

  /** struct BookendData, its counted arrays as sequences. */
  datatype Data = Data(kind: u8, flags: Flags, pid01: seq<u8>, stored: seq<Dtc>, pending: seq<Dtc>, m06: seq<Monitor>)

  function Word(hi: u8, lo: u8): u16 { hi * 0x100 + lo }

  // ---- parsers -----------------------------------------------------------

  /** Mode 01 PID 01: the four bytes, if that is what the reply is. */
  function Pid01(p: seq<u8>): Option<seq<u8>> {
    if |p| >= 6 && p[0] == 0x41 && p[1] == 0x01 then Some(p[2..6]) else None
  }

  /** How many codes a DTC reply holds: its count, or what is there of it. */
  function DtcCount(p: seq<u8>): nat
    requires |p| >= 2
  {
    Min(p[1], (|p| - 2) / 2)
  }

  function CodeAt(p: seq<u8>, i: nat): u16
    requires 2 * i + 3 < |p|
  {
    Word(p[2 + 2 * i], p[3 + 2 * i])
  }

  /** The codes of the first n places, padding left out. */
  function Codes(ecu: u8, p: seq<u8>, n: nat): seq<Dtc>
    requires 2 * n + 2 <= |p|
  {
    if n == 0 then []
    else Codes(ecu, p, n - 1) + if CodeAt(p, n - 1) == 0 then [] else [Dtc(ecu, CodeAt(p, n - 1))]
  }

  function MonitorAt(ecu: u8, p: seq<u8>, o: nat): Monitor
    requires o + 9 <= |p|
  {
    Monitor(ecu, p[o], p[o + 1], p[o + 2], Word(p[o + 3], p[o + 4]), Word(p[o + 5], p[o + 6]), Word(p[o + 7], p[o + 8]))
  }

  /** The first n whole records of a Mode 06 reply. */
  function Monitors(ecu: u8, p: seq<u8>, n: nat): (r: seq<Monitor>)
    requires 9 * n + 1 <= |p|
    ensures |r| == n
  {
    if n == 0 then [] else Monitors(ecu, p, n - 1) + [MonitorAt(ecu, p, 9 * (n - 1) + 1)]
  }

  /** What fits under a cap of what there was and what came. */
  function Capped<T>(have: seq<T>, more: seq<T>, cap: nat): seq<T> {
    if |have| + |more| <= cap then have + more else if |have| <= cap then have + more[..cap - |have|] else have
  }

  /** bookendParseDtcs. */
  function ParseDtcs(d: Data, ecu: u8, pending: bool, p: seq<u8>): Data {
    if |p| < 2 || p[0] != (if pending then 0x47 else 0x43) then d
    else
      var codes := Codes(ecu, p, DtcCount(p));
      if pending then
        d.(pending := Capped(d.pending, codes, MAX_PENDING),
           flags := Shortened(d.flags, |d.pending| + |codes| > MAX_PENDING && codes != []))
      else
        d.(stored := Capped(d.stored, codes, MAX_STORED),
           flags := Shortened(d.flags, |d.stored| + |codes| > MAX_STORED && codes != []))
  }

  function Shortened(f: Flags, cut: bool): Flags { if cut then f.(truncated := true) else f }

  /** bookendParseM06Results. */
  function ParseM06Results(d: Data, ecu: u8, p: seq<u8>): Data {
    if |p| < 10 || p[0] != 0x46 then d
    else
      var more := Monitors(ecu, p, (|p| - 1) / 9);
      d.(m06 := Capped(d.m06, more, MAX_M06), flags := Shortened(d.flags, |d.m06| + |more| > MAX_M06))
  }

  /** Bit k, from the left, of a byte. */
  function TopBit(b: u8, k: nat): bool
    requires k < 8
  {
    b / [128, 64, 32, 16, 8, 4, 2, 1][k] % 2 == 1
  }

  /** bookendParseM06Support: the MIDs that a support page advertises. */
  function SupportOf(base: u8, p: seq<u8>): set<u8> {
    if |p| < 6 || p[0] != 0x46 || p[1] != base then {}
    else set mid: u8 | base < mid <= base + 32 && Advertised(base, p, mid)
  }

  predicate Advertised(base: u8, p: seq<u8>, mid: u8)
    requires |p| >= 6 && base < mid <= base + 32
  {
    var bit := mid - base - 1;
    TopBit(p[2 + bit / 8], bit % 8)
  }

  // ---- sequencer ---------------------------------------------------------

  datatype Timing = Timing(quietMs: u32, reqMaxMs: u32, minStartMs: u32)

  datatype Step = Pid01Step | M03Step | M07Step | SupportStep | MidStep | EndStep

  datatype Act = Wait | Send(tx: Tx) | Done

  datatype Tx = Tx(id: nat, data: seq<u8>)

  /** struct BookendSeq; the two bit masks are sets. */
  datatype Seq = Seq(d: Data, t: Timing, deadline: u32, step: Step, inflight: bool, reqMode: u8, reqPid: u8,
                     sentMs: u32, lastRxMs: u32, rx: seq<Rx>, fcPending: set<nat>, support: set<u8>,
                     next: nat, base: u8, any: bool, pid01Ecu0: bool, stepsDone: nat,
                     outOfTime: bool, txFailed: bool, finished: bool)

  function EmptyRx(): (r: Rx)
    ensures Valid(r)
  {
    Rx(false, 0, 0, 0, seq(IsoTp.MAX, _ => 0))
  }

  function NoRx(): (rx: seq<Rx>)
    ensures |rx| == RESPONDERS && forall i :: 0 <= i < RESPONDERS ==> rx[i] == EmptyRx()
  {
    seq(RESPONDERS, _ => EmptyRx())
  }

  /** bookendSeqStart. */
  function Begin(kind: u8, now: u32, budgetMs: u32, t: Timing): Seq {
    Seq(Data(kind, Flags(false, false, false), [0xFF, 0xFF, 0xFF, 0xFF], [], [], []), t, Wrap(now + budgetMs),
        Pid01Step, false, 0, 0, 0, 0, NoRx(), {}, {}, 0, 0, false, false, 0, false, false, false)
  }

  /** finish: the flags say how much was read. */
  function Finish(s: Seq): Seq {
    var truncated := s.d.flags.truncated || s.outOfTime || s.txFailed;
    var flags := Flags(s.d.flags.complete || (s.stepsDone == 4 && !truncated), truncated,
                       s.d.flags.noResponse || !s.pid01Ecu0);
    s.(d := s.d.(flags := flags), finished := true)
  }

  /** stepDone: what to ask next. */
  function Advance(s: Seq): Seq {
    var (done, step, base, next) :=
      match s.step
      case Pid01Step => (s.stepsDone + 1, M03Step, s.base, s.next)
      case M03Step => (s.stepsDone + 1, M07Step, s.base, s.next)
      case M07Step => (s.stepsDone + 1, SupportStep, 0, s.next)
      case SupportStep =>
        if s.base < 0xE0 && s.base + 0x20 in s.support then (s.stepsDone, SupportStep, s.base + 0x20, s.next)
        else (s.stepsDone, MidStep, s.base, 1)
      case MidStep => (s.stepsDone, MidStep, s.base, s.reqPid + 1)
      case EndStep => (s.stepsDone, EndStep, s.base, s.next);
    s.(stepsDone := done, step := step, base := base, next := next)
  }

  /** A functional request: one or two bytes, padded. */
  function RequestTx(mode: u8, pid: Option<u8>): Tx {
    Tx(0x7DF, (if pid.Some? then [0x02, mode, pid.value, 0x55] else [0x01, mode, 0x55, 0x55])
              + [0x55, 0x55, 0x55, 0x55])
  }

  function FlowControlTx(i: nat): Tx {
    Tx(0x7E0 + i, [0x30, 0x00, 0x00, 0x55, 0x55, 0x55, 0x55, 0x55])
  }

  function Request(s: Seq, mode: u8, pid: Option<u8>, now: u32): (Seq, Act) {
    (s.(reqMode := mode, reqPid := if pid.Some? then pid.value else 0, inflight := true,
        sentMs := now, lastRxMs := now, rx := NoRx(), fcPending := {}),
     Send(RequestTx(mode, pid)))
  }

  /** The first MID from mid on that is advertised and is no support page. */
  function NextMid(support: set<u8>, mid: nat): (r: nat)
    ensures r >= mid && (forall m: u8 :: mid <= m < r ==> m % 0x20 == 0 || m !in support)
    ensures r <= 0xFF ==> r % 0x20 != 0 && r in support
    decreases 0x100 - mid
  {
    if mid > 0xFF || !(mid % 0x20 == 0 || mid !in support) then mid else NextMid(support, mid + 1)
  }

  /** Too little of the budget left to start a request. */
  predicate TooLate(s: Seq, now: u32) { Signed(Wrap(s.deadline - now)) < Signed(s.t.minStartMs) }

  /** The request loop of bookendSeqPoll, with nothing in flight. */
  function Launch(s: Seq, now: u32): (Seq, Act) {
    var mid := NextMid(s.support, s.next);
    if s.step == EndStep then (Finish(s), Done)
    else if TooLate(s, now) then (Finish(s.(outOfTime := true)), Done)
    else if s.step == MidStep && mid > 0xFF then (Finish(s.(stepsDone := s.stepsDone + 1, step := EndStep)), Done)
    else
      var (mode, pid) :=
        match s.step
        case Pid01Step => (0x01, Some(0x01))
        case M03Step => (0x03, None)
        case M07Step => (0x07, None)
        case SupportStep => (0x06, Some(s.base))
        case MidStep => (0x06, Some(mid));
      Request(s, mode, pid, now)
  }

  function Least(f: set<nat>, i: nat): nat
    decreases RESPONDERS - i
  {
    if i >= RESPONDERS || i in f then i else Least(f, i + 1)
  }

  predicate Assembling(rx: seq<Rx>) { exists i :: 0 <= i < |rx| && rx[i].active }

  /** The request in flight is answered, or has had its time. */
  predicate Settled(s: Seq, now: u32) {
    (Wrap(now - s.lastRxMs) >= s.t.quietMs && !Assembling(s.rx)) || Wrap(now - s.sentMs) >= s.t.reqMaxMs
  }

  predicate Reached(now: u32, t: u32) { Signed(Wrap(now - t)) >= 0 }

  /** bookendSeqPoll. */
  function Poll(s: Seq, now: u32): (Seq, Act) {
    if s.finished then (s, Done)
    else if s.fcPending != {} then
      var i := Least(s.fcPending, 0);
      (s.(fcPending := s.fcPending - {i}), Send(FlowControlTx(i)))
    else if s.inflight then
      if Settled(s, now) then Launch(Advance(s.(inflight := false)), now)
      else if Reached(now, s.deadline) then (Finish(s.(inflight := false, outOfTime := true)), Done)
      else (s, Wait)
    else Launch(s, now)
  }

  /** What a message that answers the request in flight adds to the record. */
  function Told(s: Seq, ecu: u8, p: seq<u8>): Data {
    match s.step
    case Pid01Step => if ecu == 0 && !s.pid01Ecu0 && Pid01(p).Some? then s.d.(pid01 := Pid01(p).value) else s.d
    case M03Step => ParseDtcs(s.d, ecu, false, p)
    case M07Step => ParseDtcs(s.d, ecu, true, p)
    case MidStep => if |p| >= 2 && p[1] == s.reqPid then ParseM06Results(s.d, ecu, p) else s.d
    case _ => s.d
  }

  /** handleMessage. */
  function Handle(s: Seq, ecu: u8, p: seq<u8>): Seq {
    if |p| < 1 || p[0] != (s.reqMode + 0x40) % 0x100 then s
    else
      s.(any := true, d := Told(s, ecu, p),
         pid01Ecu0 := s.pid01Ecu0 || (s.step == Pid01Step && ecu == 0 && Pid01(p).Some?),
         support := if s.step == SupportStep then s.support + SupportOf(s.base, p) else s.support)
  }

  predicate ForUs(s: Seq, id: nat) { s.inflight && !s.finished && 0x7E8 <= id <= 0x7EF }

  predicate RxOk(s: Seq) { |s.rx| == RESPONDERS && forall i :: 0 <= i < RESPONDERS ==> Valid(s.rx[i]) }

  /** bookendSeqOnFrame. */
  function OnFrame(s: Seq, id: nat, data: seq<u8>, now: u32): Seq
    requires RxOk(s)
  {
    if !ForUs(s, id) then s
    else
      var i := id - 0x7E8;
      var (r, ev) := Feed(s.rx[i], data);
      var s' := s.(lastRxMs := now, rx := s.rx[i := r]);
      if ev == NeedFc then s'.(fcPending := s'.fcPending + {i})
      else if ev == Complete then Handle(s', i, Message(r))
      else s'
  }

  /** bookendSeqTxFailed. */
  function TxFailed(s: Seq): Seq {
    if s.finished then s else Finish(s.(inflight := false, txFailed := true))
  }
}
