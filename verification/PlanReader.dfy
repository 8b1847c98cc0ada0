/** Pass 2 of pollPlanParse: the cursor walks a text that pass 1 accepted, and
    ignores the answers of jstr and of most calls to eat. */
module PlanReader {
  import opened Options
  import opened Decimals
  import opened Json
  import opened PlanContract
  import opened PlanParser

  /** PollPlan: an array of 32 entries and how many are in use. */
  class PlanBuffer {
    const e: array<Entry>
    var n: nat

    constructor ()
      ensures Valid() && Contents() == [] && fresh(e)
    {
      e := new Entry[PLAN_MAX](_ => Entry(0, 0, 0));
      n := 0;
    }

    ghost predicate Valid()
      reads this
    {
      e.Length == PLAN_MAX && n <= PLAN_MAX
    }

    ghost function Contents(): seq<Entry>
      requires Valid()
      reads this, e
    {
      e[..n]
    }

    /** The loop that finds the place. */
    method FindPlace(x: Entry) returns (at: nat)
      requires Valid()
      ensures at == Place(Contents(), x)
    {
      at := 0;
      while at < n && Before(e[at], x)
        invariant at <= n && forall i :: 0 <= i < at ==> Before(e[i], x)
      {
        at := at + 1;
      }
      PlaceIs(Contents(), x, at);
    }

    /** The loop that shifts the entries from at on up by one. */
    method ShiftUp(at: nat)
      requires Valid() && at <= n < PLAN_MAX
      modifies e
      ensures forall j :: 0 <= j < at ==> e[j] == old(e[j])
      ensures forall j :: at < j <= n ==> e[j] == old(e[j - 1])
    {
      var i := n;
      while i > at
        invariant at <= i <= n && Valid()
        invariant forall j :: 0 <= j < i ==> e[j] == old(e[j])
        invariant forall j :: i < j <= n ==> e[j] == old(e[j - 1])
      {
        e[i] := e[i - 1];
        i := i - 1;
      }
    }

    /** The sorted insertion: find the place, refuse an equal key, shift the
        later entries up by one. */
    method Add(x: Entry) returns (ok: bool)
      requires Valid() && n < PLAN_MAX
      modifies this, e
      ensures Valid()
      ensures match Insert(old(Contents()), x)
              case Good(p) => ok && Contents() == p
              case Bad(_) => !ok && Contents() == old(Contents())
    {
      hide Place, Before;
      ghost var was := Contents();
      var at := FindPlace(x);
      if at < n && SameKey(e[at], x) { return false; }
      ShiftUp(at);
      e[at] := x;
      n := n + 1;
      InsertedIs(was, at, x, Contents());
      ok := true;
    }

    method Clear()
      requires Valid()
      modifies this
      ensures Valid() && Contents() == []
    {
      n := 0;
    }
  }

  lemma PlaceIs(p: seq<Entry>, x: Entry, at: nat)
    requires at <= |p| && (forall i :: 0 <= i < at ==> Before(p[i], x)) && (at < |p| ==> !Before(p[at], x))
    ensures Place(p, x) == at
  {
    var q := Place(p, x);
    assert !(q < at) && !(at < q);
  }

  lemma InsertedIs(was: seq<Entry>, at: nat, x: Entry, now: seq<Entry>)
    requires at <= |was| && |now| == |was| + 1 && now[at] == x
    requires forall j :: 0 <= j < at ==> now[j] == was[j]
    requires forall j :: at < j < |now| ==> now[j] == was[j - 1]
    ensures now == was[..at] + [x] + was[at..]
  {
    var r := was[..at] + [x] + was[at..];
    forall j | 0 <= j < |now| ensures now[j] == r[j] {
      if j > at { assert r[j] == was[at..][j - at - 1]; }
    }
  }

  // ---- one step of the tree ----------------------------------------------

  lemma ElemsStep(k: Kind, s: string, d: nat)
    requires ParseElems(k, s, d).Some?
    ensures var (es, rest) := ParseElems(k, s, d).value;
            && ParseLabel(k, s).Some? && ParseLabel(k, s).value.0 == es.key
            && var a := ParseLabel(k, s).value.1;
            && ParseValue(a, d).Some? && ParseValue(a, d).value.0 == es.v
            && var t := SkipWs(ParseValue(a, d).value.1);
            match es.next
            case None => StartsWith(t, Closer(k)) && !StartsWith(t, ',') && rest == t[1..]
            case Some(next) => StartsWith(t, ',') && ParseElems(k, t[1..], d) == Some((next, rest))
  {
    hide ParseLabel, ParseValue;
    ElemsStepTail(k, SkipWs(ParseValue(ParseLabel(k, s).value.1, d).value.1), d);
  }

  lemma ElemsStepTail(k: Kind, t: string, d: nat)
    requires ParseTail(k, t, d).Some?
    ensures var (next, rest) := ParseTail(k, t, d).value;
            match next
            case None => StartsWith(t, Closer(k)) && !StartsWith(t, ',') && rest == t[1..]
            case Some(es) => StartsWith(t, ',') && ParseElems(k, t[1..], d) == Some((es, rest))
  {
    hide ParseElems;
  }

  lemma BodyStep(k: Kind, t: string, d: nat)
    requires ParseBody(k, t, d).Some?
    ensures var (body, rest) := ParseBody(k, t, d).value;
            match body
            case Empty(_) => StartsWith(SkipWs(t), Closer(k)) && rest == SkipWs(t)[1..]
            case Filled(es) => !StartsWith(SkipWs(t), Closer(k)) && ParseElems(k, t, d) == Some((es, rest))
  {
    hide ParseElems;
  }

  /** The kind of a value shows in its first character; behind an opening
      bracket comes the body. */
  lemma NodeStep(s: string, d: nat, k: Kind)
    requires ParseValue(s, d).Some?
    ensures var (j, rest) := ParseValue(s, d).value;
            && IsNode(j, k) == StartsWith(SkipWs(s), Opener(k))
            && (IsNode(j, k) ==> d > 0 && ParseBody(k, SkipWs(s)[1..], d - 1) == Some((j.body, rest)))
  {
    hide ParseBody, ParseScalar, WsRun;
  }

  lemma KeyStep(s: string)
    requires ParseLabel(Object, s).Some?
    ensures var (key, rest) := ParseLabel(Object, s).value;
            && key.Key?
            && ParseQuoted(SkipWs(s)).Some? && ParseQuoted(SkipWs(s)).value.0 == key.raw
            && var t := SkipWs(ParseQuoted(SkipWs(s)).value.1);
               StartsWith(t, ':') && rest == t[1..]
  {
    hide ParseQuoted;
  }

  /** Equal up to values too large for any bound the contract compares with. */
  predicate Near(x: int, y: int) {
    x == y || (x >= SATURATION && y >= SATURATION) || (x <= -SATURATION && y <= -SATURATION)
  }

  /** jint on the text of a value: it succeeds exactly on an integer. */
  lemma IntStep(s: string, d: nat)
    requires ParseValue(s, d).Some?
    ensures var (j, rest) := ParseValue(s, d).value;
            var r := ParseNumber(SkipWs(s));
            && IntOf(j).Some? == (r.Some? && IsInteger(r.value.0) && AllDigits(r.value.0.whole))
            && (IntOf(j).Some? ==>
                  && rest == r.value.1
                  && var n := r.value.0;
                     Near(if n.neg then -SatOf(n.whole) else SatOf(n.whole), IntOf(j).value))
  {
    ScalarInt(s, d);
    var r := ParseNumber(SkipWs(s));
    if r.Some? && AllDigits(r.value.0.whole) { SaturationIsHarmless(r.value.0.whole); }
  }

  lemma ScalarInt(s: string, d: nat)
    requires ParseValue(s, d).Some?
    ensures var (j, rest) := ParseValue(s, d).value;
            var r := ParseNumber(SkipWs(s));
            && j.Num? == r.Some?
            && (j.Num? ==> r.value == (j.num, rest))
  {
    hide ParseBody, ParseQuoted, ParseNumber, WsRun;
    var t := SkipWs(s);
    if t[0] == '"' || t[0] == 't' || t[0] == 'f' || t[0] == 'n' || t[0] == '{' || t[0] == '[' {
      NotANumber(t);
    }
  }

  lemma NotANumber(t: string)
    requires t != "" && !IsDigit(t[0]) && t[0] != '-'
    ensures ParseNumber(t).None?
  {
  }

  // ---- the walk ----------------------------------------------------------

  /** The cursor stands at s, up to white space. */
  ghost predicate At(c: Cursor, s: string)
    reads c
  {
    c.Valid() && SkipWs(c.Rest()) == SkipWs(s)
  }

  lemma AtRest(c: Cursor)
    requires c.Valid()
    ensures At(c, c.Rest()) && At(c, SkipWs(c.Rest()))
  {
    SkipTwice(c.Rest());
  }

  /** A key and its colon. Neither jstr nor eat is checked by the firmware;
      both succeed. The key is told apart by its text when it fits. */
  method ReadKey(c: Cursor, ghost s: string) returns (key: string, fits: bool)
    requires At(c, s) && ParseLabel(Object, s).Some?
    modifies c`p
    ensures c.Valid() && c.Rest() == ParseLabel(Object, s).value.1
    ensures var raw := RawKey(ParseLabel(Object, s).value.0);
            fits == Fits(raw, 16) && (fits ==> key == raw)
  {
    hide ParseLabel, ParseQuoted, SkipWs, Fits;
    KeyStep(s);
    var ok, colon;
    ok, key, fits := c.Jstr(16);
    assert ok;
    colon := c.Eat(':');
    assert colon;
  }

  /** Of the names the contract knows, all fit the buffer. */
  lemma KnownNamesFit(raw: string)
    requires raw == "mode" || raw == "pid" || raw == "period_ms" || raw == "version" || raw == "entries"
    ensures Fits(raw, 16)
  {
  }

  /** One field of an entry: the answer is the new set of fields. */
  method ReadField(c: Cursor, f: Fields, ghost g: Fields, ghost s: string, ghost d: nat)
    returns (r: Reading<Fields>)
    requires At(c, s) && ParseLabel(Object, s).Some? && ParseValue(ParseLabel(Object, s).value.1, d).Some?
    requires NearFields(f, g)
    modifies c`p
    ensures c.Valid()
    ensures var (key, a) := ParseLabel(Object, s).value;
            var (j, b) := ParseValue(a, d).value;
            match SetField(g, RawKey(key), j)
            case Bad(why) => r == Bad(why)
            case Good(g') => r.Good? && NearFields(r.value, g') && c.Rest() == b
  {
    hide ParseLabel, ParseValue, ParseNumber, SkipWs, Fits, IntOf, SatOf;
    ghost var (key, a) := ParseLabel(Object, s).value;
    var name, fits := ReadKey(c, s);
    if RawKey(key) == "mode" || RawKey(key) == "pid" || RawKey(key) == "period_ms" { KnownNamesFit(RawKey(key)); }
    IntStep(a, d);
    if !(fits && (name == "mode" || name == "pid" || name == "period_ms")) { return Bad("unknown field"); }
    var seen := if name == "mode" then f.mode else if name == "pid" then f.pid else f.period;
    if seen.Some? { return Bad("duplicate field"); }
    var ok, v := c.Jint();
    if !ok { return Bad("invalid type"); }
    r := Good(if name == "mode" then f.(mode := Some(v))
              else if name == "pid" then f.(pid := Some(v))
              else f.(period := Some(v)));
  }

  predicate NearOption(x: Option<int>, y: Option<int>) {
    x.Some? == y.Some? && (x.Some? ==> Near(x.value, y.value))
  }

  /** The saturated fields of the firmware beside the true ones. */
  predicate NearFields(f: Fields, g: Fields) {
    NearOption(f.mode, g.mode) && NearOption(f.pid, g.pid) && NearOption(f.period, g.period)
  }

  /** No bound of the contract tells near fields apart. */
  lemma NearFieldsAgree(f: Fields, g: Fields)
    requires NearFields(f, g)
    ensures EntryOf(f) == EntryOf(g)
  {
  }

  /** The object of one entry. */
  method ReadEntryText(c: Cursor, ghost s: string, ghost d: nat) returns (r: Reading<Entry>)
    requires At(c, s) && ParseValue(s, d).Some?
    modifies c`p
    ensures c.Valid()
    ensures r == ReadEntry(ParseValue(s, d).value.0)
    ensures r.Good? ==> c.Rest() == ParseValue(s, d).value.1
  {
    hide ParseValue, ParseBody, EntryOfBody, SkipWs;
    NodeStep(s, d, Object);
    var open := c.Eat('{');
    if !open { return Bad("invalid type: entry"); }
    AtRest(c);
    ghost var e: nat := d - 1;
    r := ReadEntryBody(c, SkipWs(s)[1..], e);
  }

  /** The fields of an entry, its opening brace already read. */
  method ReadEntryBody(c: Cursor, ghost t: string, ghost d: nat) returns (r: Reading<Entry>)
    requires At(c, t) && ParseBody(Object, t, d).Some?
    modifies c`p
    ensures c.Valid() && r == EntryOfBody(ParseBody(Object, t, d).value.0)
    ensures r.Good? ==> c.Rest() == ParseBody(Object, t, d).value.1
  {
    hide ParseBody, ParseElems, EntryOf, EntryOfBody, SkipWs;
    BodyStep(Object, t, d);
    EmptyEntry();
    var closed := c.Eat('}');
    if closed { return EntryOf(NO_FIELDS); }
    SkipTwice(t);
    r := ReadFieldList(c, t, d);
  }

  lemma EmptyEntry()
    ensures forall w :: EntryOfBody(Empty(w)) == EntryOf(NO_FIELDS)
  {
  }

  /** The loop over the fields of one entry. */
  method ReadFieldList(c: Cursor, ghost s: string, ghost d: nat) returns (r: Reading<Entry>)
    requires At(c, s) && ParseElems(Object, s, d).Some?
    modifies c`p
    ensures c.Valid()
    ensures r == EntryOfBody(Filled(ParseElems(Object, s, d).value.0))
    ensures r.Good? ==> c.Rest() == ParseElems(Object, s, d).value.1
  {
    hide ParseValue, ParseLabel, ParseElems, SkipWs, SetField, EntryOf;
    var f := NO_FIELDS;
    ghost var (es, rest) := ParseElems(Object, s, d).value;
    ghost var here, left, g := s, es, NO_FIELDS;
    var more := true;
    while more
      invariant c.Valid() && NearFields(f, g)
      invariant more ==>
                  && At(c, here) && ParseElems(Object, here, d) == Some((left, rest))
                  && ReadFields(es, NO_FIELDS) == ReadFields(left, g)
      invariant !more ==> c.Rest() == rest && ReadFields(es, NO_FIELDS) == Good(g)
      decreases more, |here|
    {
      ElemsStep(Object, here, d);
      var q := ReadField(c, f, g, here, d);
      if q.Bad? { return Bad(q.reason); }
      f, g := q.value, SetField(g, RawKey(left.key), left.v).value;
      ghost var b := c.Rest();
      more := c.Eat(',');
      if more {
        here, left := SkipWs(b)[1..], left.next.value;
        AtRest(c);
      } else {
        SkipTwice(b);
        var end := c.Eat('}');
        assert end;
      }
    }
    NearFieldsAgree(f, g);
    r := EntryOf(f);
  }

  /** The array of entries: each is read, checked and inserted. */
  method ReadEntryList(c: Cursor, out: PlanBuffer, ghost s: string, ghost d: nat) returns (bad: Option<string>)
    requires At(c, s) && ParseElems(Array, s, d).Some? && out.Valid()
    modifies c`p, out, out.e
    ensures c.Valid() && out.Valid()
    ensures match ReadEntries(ParseElems(Array, s, d).value.0, old(out.Contents()))
            case Bad(why) => bad == Some(why)
            case Good(p) => bad.None? && out.Contents() == p && c.Rest() == ParseElems(Array, s, d).value.1
  {
    hide ParseValue, ParseElems, SkipWs, ReadEntry, Insert;
    ghost var (es, rest) := ParseElems(Array, s, d).value;
    ghost var here, left, was := s, es, out.Contents();
    var more := true;
    while more
      invariant c.Valid() && out.Valid()
      invariant more ==>
                  && At(c, here) && ParseElems(Array, here, d) == Some((left, rest))
                  && ReadEntries(es, was) == ReadEntries(left, out.Contents())
      invariant !more ==> c.Rest() == rest && ReadEntries(es, was) == Good(out.Contents())
      decreases more, |here|
    {
      ElemsStep(Array, here, d);
      if out.n >= PLAN_MAX { return Some("too many entries"); }
      var r := ReadEntryText(c, here, d);
      if r.Bad? { return Some(r.reason); }
      var ok := out.Add(r.value);
      if !ok { InsertReason(out.Contents(), r.value); return Some("duplicate entry"); }
      ghost var b := c.Rest();
      more := c.Eat(',');
      if more {
        here, left := SkipWs(b)[1..], left.next.value;
        AtRest(c);
      } else {
        SkipTwice(b);
        var end := c.Eat(']');
        assert end;
      }
    }
    bad := None;
  }

  lemma InsertReason(p: seq<Entry>, e: Entry)
    ensures Insert(p, e).Bad? ==> Insert(p, e) == Bad("duplicate entry")
  {
  }

  /** The value of the key "entries". */
  method ReadEntriesValue(c: Cursor, out: PlanBuffer, ghost t: Top, ghost s: string, ghost d: nat)
    returns (bad: Option<string>)
    requires At(c, s) && ParseValue(s, d).Some? && out.Valid() && out.Contents() == t.plan
    modifies c`p, out, out.e
    ensures c.Valid() && out.Valid()
    ensures match ReadTopField(t, "entries", ParseValue(s, d).value.0)
            case Bad(why) => bad == Some(why)
            case Good(u) => bad.None? && out.Contents() == u.plan && c.Rest() == ParseValue(s, d).value.1
  {
    hide ParseValue, ParseBody, ParseElems, SkipWs, ReadEntries;
    NodeStep(s, d, Array);
    var open := c.Eat('[');
    if !open { return Some("invalid type: entries"); }
    ghost var e: nat, body := d - 1, SkipWs(s)[1..];
    BodyStep(Array, body, e);
    var closed := c.Eat(']');
    if closed { return None; }
    SkipTwice(body);
    bad := ReadEntryList(c, out, body, e);
  }

  /** One field of the top-level object. */
  method ReadTopFieldText(c: Cursor, out: PlanBuffer, ghost t: Top, ghost s: string, ghost d: nat)
    returns (bad: Option<string>, version: bool, entries: bool)
    requires At(c, s) && ParseLabel(Object, s).Some? && ParseValue(ParseLabel(Object, s).value.1, d).Some?
    requires out.Valid() && out.Contents() == t.plan
    modifies c`p, out, out.e
    ensures c.Valid() && out.Valid()
    ensures var (key, a) := ParseLabel(Object, s).value;
            var (j, b) := ParseValue(a, d).value;
            match ReadTopField(t, RawKey(key), j)
            case Bad(why) => bad == Some(why)
            case Good(u) => && bad.None? && out.Contents() == u.plan && c.Rest() == b
                            && u.version == (t.version || version) && u.entries == (t.entries || entries)
  {
    hide ParseLabel, ParseValue, ParseNumber, SkipWs, Fits, IntOf, SatOf;
    ghost var raw := RawKey(ParseLabel(Object, s).value.0);
    ghost var a := ParseLabel(Object, s).value.1;
    bad, version, entries := None, false, false;
    var name, fits := ReadKey(c, s);
    if raw == "version" || raw == "entries" { KnownNamesFit(raw); }
    if fits && name == "version" {
      IntStep(a, d);
      var ok, v := c.Jint();
      if !ok { bad := Some("invalid type: version"); return; }
      if v != 1 { bad := Some("unsupported version"); return; }
      version := true;
    } else if fits && name == "entries" {
      AtRest(c);
      bad := ReadEntriesValue(c, out, t, a, d);
      entries := true;
    } else {
      bad := Some("unknown field");
    }
  }

  /** The loop over the fields of the top-level object. */
  method ReadTopList(c: Cursor, out: PlanBuffer, ghost s: string, ghost d: nat)
    returns (bad: Option<string>, version: bool, entries: bool)
    requires At(c, s) && ParseElems(Object, s, d).Some? && out.Valid() && out.Contents() == []
    modifies c`p, out, out.e
    ensures c.Valid() && out.Valid()
    ensures match ReadTop(ParseElems(Object, s, d).value.0, EMPTY_TOP)
            case Bad(why) => bad == Some(why)
            case Good(t) =>
              && bad.None? && t == Top(version, entries, out.Contents())
              && c.Rest() == ParseElems(Object, s, d).value.1
  {
    hide ParseValue, ParseLabel, ParseElems, SkipWs, ReadTopField;
    bad, version, entries := None, false, false;
    ghost var (es, rest) := ParseElems(Object, s, d).value;
    ghost var here, left, t := s, es, EMPTY_TOP;
    var more := true;
    while more
      invariant c.Valid() && out.Valid() && t == Top(version, entries, out.Contents()) && bad == None
      invariant more ==>
                  && At(c, here) && ParseElems(Object, here, d) == Some((left, rest))
                  && ReadTop(es, EMPTY_TOP) == ReadTop(left, t)
      invariant !more ==> c.Rest() == rest && ReadTop(es, EMPTY_TOP) == Good(t)
      decreases more, |here|
    {
      ElemsStep(Object, here, d);
      var v, e;
      bad, v, e := ReadTopFieldText(c, out, t, here, d);
      if bad.Some? { return; }
      version, entries := version || v, entries || e;
      t := ReadTopField(t, RawKey(left.key), left.v).value;
      ghost var b := c.Rest();
      more := c.Eat(',');
      if more {
        here, left := SkipWs(b)[1..], left.next.value;
        AtRest(c);
      } else {
        SkipTwice(b);
        var end := c.Eat('}');
        assert end;
      }
    }
  }

  datatype Status = StatusOk | StatusMalformed | StatusInvalid(reason: string)

  /** pollPlanParse. */
  method PollPlanParse(json: string, out: PlanBuffer) returns (r: Status)
    requires out.Valid()
    modifies out, out.e
    ensures out.Valid()
    ensures match Answer(json)
            case Accepted(plan) => r == StatusOk && out.Contents() == plan
            case Malformed => r == StatusMalformed && out.Contents() == []
            case Invalid(why) => r == StatusInvalid(why)
  {
    hide ParseValue, ParseBody, SkipWs, ReadTop;
    out.Clear();
    if |json| > JSON_MAX { return StatusMalformed; }
    var c := new Cursor(json);
    assert c.Rest() == json;
    var ok := c.Jskip();
    if !ok { return StatusMalformed; }
    c.Ws();
    if c.p != |json| { return StatusMalformed; }
    r := ReadBody(json, out);
  }

  /** Pass 2. */
  method ReadBody(json: string, out: PlanBuffer) returns (r: Status)
    requires out.Valid() && out.Contents() == [] && ParseValue(json, DEPTH_MAX).Some?
    modifies out, out.e
    ensures out.Valid()
    ensures match Contract(ParseValue(json, DEPTH_MAX).value.0)
            case Accepted(plan) => r == StatusOk && out.Contents() == plan
            case Malformed => r == StatusMalformed
            case Invalid(why) => r == StatusInvalid(why)
  {
    hide ParseValue, ParseBody, ParseElems, SkipWs, ReadTop;
    var c := new Cursor(json);
    assert c.Rest() == json;
    NodeStep(json, DEPTH_MAX, Object);
    var open := c.Eat('{');
    if !open { return StatusInvalid("body must be an object"); }
    ghost var body := SkipWs(json)[1..];
    BodyStep(Object, body, DEPTH_MAX - 1);
    var version, entries := false, false;
    var closed := c.Eat('}');
    if !closed {
      SkipTwice(body);
      var bad;
      bad, version, entries := ReadTopList(c, out, body, DEPTH_MAX - 1);
      if bad.Some? { return StatusInvalid(bad.value); }
    }
    if !version || !entries {
      out.Clear();
      return StatusInvalid("missing field");
    }
    r := StatusOk;
  }
}
