/** What a poll-plan request body means: the contract of protocol v1, read off
    the syntax tree of the body in the order in which the firmware reports
    errors. */
module PlanContract {
  import opened Words
  import opened Options
  import opened Decimals
  import opened Json

  const PLAN_MAX := 32
  const PERIOD_MIN_MS := 100
  const PERIOD_MAX_MS := 60000
  const JSON_MAX := 4096
  const DEPTH_MAX := 16

  datatype Entry = Entry(mode: u8, pid: u8, periodMs: u32)

  datatype Reading<+T> = Good(value: T) | Bad(reason: string) {
    predicate IsFailure() { Bad? }

    function PropagateFailure<U>(): Reading<U>
      requires Bad?
    {
      Bad(reason)
    }

    function Extract(): T
      requires Good?
    {
      value
    }
  }

  /** The three answers: 200, 400 and 422. */
  datatype Outcome = Accepted(plan: seq<Entry>) | Malformed | Invalid(reason: string)

  // ---- plans -------------------------------------------------------------

  predicate SameKey(a: Entry, b: Entry) { a.mode == b.mode && a.pid == b.pid }

  predicate Before(a: Entry, b: Entry) {
    if a.mode != b.mode then a.mode < b.mode else a.pid < b.pid
  }

  predicate Sorted(p: seq<Entry>) {
    forall i, j :: 0 <= i < j < |p| ==> Before(p[i], p[j])
  }

  predicate EntryOk(e: Entry) {
    e.mode == 1 && PERIOD_MIN_MS <= e.periodMs <= PERIOD_MAX_MS
  }

  predicate PlanOk(p: seq<Entry>) {
    && |p| <= PLAN_MAX
    && (forall e :: e in p ==> EntryOk(e))
    && Sorted(p)
  }

  /** Where the insertion loop stops: at the first entry not before e. */
  function Place(p: seq<Entry>, e: Entry): (at: nat)
    ensures at <= |p|
    ensures forall i :: 0 <= i < at ==> Before(p[i], e)
    ensures at < |p| ==> !Before(p[at], e)
  {
    if p == [] || !Before(p[0], e) then 0 else 1 + Place(p[1..], e)
  }

  function Insert(p: seq<Entry>, e: Entry): Reading<seq<Entry>> {
    var at := Place(p, e);
    if at < |p| && SameKey(p[at], e) then Bad("duplicate entry")
    else Good(p[..at] + [e] + p[at..])
  }

  // ---- numbers -----------------------------------------------------------

  predicate IsInteger(n: Number) { n.frac.None? && n.exp.None? }

  /** The integer a value denotes, if it is written as one. */
  function IntOf(j: Json): Option<int> {
    if j.Num? && IsInteger(j.num) && AllDigits(j.num.whole) then
      var v: int := ValueOf(j.num.whole);
      Some(if j.num.neg then -v else v)
    else None
  }

  // ---- the contract ------------------------------------------------------

  /** The fields of one entry seen so far. */
  datatype Fields = Fields(mode: Option<int>, pid: Option<int>, period: Option<int>)

  const NO_FIELDS := Fields(None, None, None)

  function RawKey(key: Label): string { if key.Key? then key.raw else "" }

  function SetField(f: Fields, name: string, j: Json): Reading<Fields> {
    if name != "mode" && name != "pid" && name != "period_ms" then Bad("unknown field")
    else
      var had := if name == "mode" then f.mode else if name == "pid" then f.pid else f.period;
      if had.Some? then Bad("duplicate field")
      else if IntOf(j).None? then Bad("invalid type")
      else if name == "mode" then Good(f.(mode := IntOf(j)))
      else if name == "pid" then Good(f.(pid := IntOf(j)))
      else Good(f.(period := IntOf(j)))
  }

  function ReadFields(es: Elems, f: Fields): Reading<Fields>
    decreases es
  {
    var g :- SetField(f, RawKey(es.key), es.v);
    if es.next.None? then Good(g) else ReadFields(es.next.value, g)
  }

  function EntryOf(f: Fields): (r: Reading<Entry>)
    ensures r.Good? ==> EntryOk(r.value)
  {
    if f.mode.None? || f.pid.None? || f.period.None? then Bad("missing field")
    else if f.mode.value != 1 then Bad("unsupported mode")
    else if !(0 <= f.pid.value <= 255) then Bad("pid out of range")
    else if !(PERIOD_MIN_MS <= f.period.value <= PERIOD_MAX_MS) then Bad("period_ms out of range")
    else Good(Entry(1, f.pid.value, f.period.value))
  }

  predicate IsNode(j: Json, k: Kind) { j.Node? && j.kind == k }

  function EntryOfBody(b: Body): Reading<Entry> {
    if b.Empty? then EntryOf(NO_FIELDS)
    else
      var f :- ReadFields(b.elems, NO_FIELDS);
      EntryOf(f)
  }

  function ReadEntry(j: Json): Reading<Entry> {
    if IsNode(j, Object) then EntryOfBody(j.body) else Bad("invalid type: entry")
  }

  function ReadEntries(es: Elems, plan: seq<Entry>): Reading<seq<Entry>>
    decreases es
  {
    if |plan| >= PLAN_MAX then Bad("too many entries")
    else
      var e :- ReadEntry(es.v);
      var p :- Insert(plan, e);
      if es.next.None? then Good(p) else ReadEntries(es.next.value, p)
  }

  /** The top level seen so far. */
  datatype Top = Top(version: bool, entries: bool, plan: seq<Entry>)

  function ReadTopField(t: Top, name: string, j: Json): Reading<Top> {
    if name == "version" then
      if IntOf(j).None? then Bad("invalid type: version")
      else if IntOf(j).value != 1 then Bad("unsupported version")
      else Good(t.(version := true))
    else if name == "entries" then
      if !IsNode(j, Array) then Bad("invalid type: entries")
      else if j.body.Empty? then Good(t.(entries := true))
      else
        var p :- ReadEntries(j.body.elems, t.plan);
        Good(Top(t.version, true, p))
    else Bad("unknown field")
  }

  function ReadTop(es: Elems, t: Top): Reading<Top>
    decreases es
  {
    var u :- ReadTopField(t, RawKey(es.key), es.v);
    if es.next.None? then Good(u) else ReadTop(es.next.value, u)
  }

  function Finish(t: Top): Outcome {
    if t.version && t.entries then Accepted(t.plan) else Invalid("missing field")
  }

  const EMPTY_TOP := Top(false, false, [])

  /** The answer to a body whose syntax tree is j. */
  function Contract(j: Json): Outcome {
    if !IsNode(j, Object) then Invalid("body must be an object")
    else if j.body.Empty? then Finish(EMPTY_TOP)
    else
      match ReadTop(j.body.elems, EMPTY_TOP)
      case Bad(why) => Invalid(why)
      case Good(t) => Finish(t)
  }

  /** The syntax tree of a whole text, white space allowed at both ends. */
  function ParseText(s: string): Option<Json> {
    match ParseValue(s, DEPTH_MAX)
    case Some((j, rest)) => if SkipWs(rest) == "" then Some(j) else None
    case None => None
  }

  function Answer(s: string): Outcome {
    if |s| > JSON_MAX then Malformed
    else
      match ParseText(s)
      case None => Malformed
      case Some(j) => Contract(j)
  }
}
