/** The other answers: a body is MALFORMED exactly if it is too long or no JSON
    text, and the reason given for an INVALID one names a fault that it has. */
module PlanReasons {
  import opened Options
  import opened Decimals
  import opened Json
  import opened PlanContract
  import opened PlanTheorems
  import opened PlanMeaning

  // ---- integers ----------------------------------------------------------

  /** A number counts as an integer exactly if it is written without fraction
      and exponent, and then as the value of its digits. */
  lemma IntMeans(w: string, n: Number)
    requires NumberOk(n)
    ensures var (text, v) := (EmitNumber(n, ""), IntOf(Num(w, n)));
            && (v.Some? <==> '.' !in text && 'e' !in text && 'E' !in text)
            && (v.Some? ==> text == (if n.neg then "-" else "") + n.whole
                            && var size: int := ValueOf(n.whole); v.value == if n.neg then -size else size)
  {
    DigitsPlain(n.whole);
    FracShows(n.frac, EmitExp(n.exp, ""));
    ExpShows(n.exp);
    if n.frac.None? && n.exp.None? { assert n.whole + "" == n.whole; }
  }

  lemma DigitsPlain(ds: string)
    requires AllDigits(ds)
    ensures '.' !in ds && 'e' !in ds && 'E' !in ds && '-' !in ds
  {
  }

  lemma FracShows(f: Option<string>, rest: string)
    requires FracOk(f)
    ensures f.Some? ==> '.' in EmitFrac(f, rest)
    ensures f.None? ==> EmitFrac(f, rest) == rest
    ensures forall c :: c in rest ==> c in EmitFrac(f, rest)
  {
    if f.Some? { assert EmitFrac(f, rest)[0] == '.'; }
  }

  lemma ExpShows(e: Option<Exponent>)
    requires ExpOk(e)
    ensures e.Some? ==> 'e' in EmitExp(e, "") || 'E' in EmitExp(e, "")
    ensures e.None? ==> EmitExp(e, "") == ""
  {
    if e.Some? { assert EmitExp(e, "")[0] == e.value.mark; }
  }

  // ---- faults ------------------------------------------------------------

  predicate HasField(fs: seq<Field>, name: string) { exists f :: f in fs && f.name == name }

  /** The value of an integer field is one that does not do. */
  predicate HasValue(fs: seq<Field>, name: string, bad: int -> bool) {
    exists f :: f in fs && f.name == name && IntOf(f.value).Some? && bad(IntOf(f.value).value)
  }

  predicate Twice(fs: seq<Field>, name: string) {
    exists i, j :: 0 <= i < j < |fs| && fs[i].name == name && fs[j].name == name
  }

  function NotOne(): int -> bool { v => v != 1 }

  function NoByte(): int -> bool { v => !(0 <= v <= 255) }

  function NoPeriod(): int -> bool { v => !(100 <= v <= 60000) }

  /** The fields of an entry have the fault. */
  predicate FieldsFault(fs: seq<Field>, why: string) {
    || (why == "unknown field" && exists f :: f in fs && !KnownName(f.name))
    || (why == "duplicate field" && (Twice(fs, "mode") || Twice(fs, "pid") || Twice(fs, "period_ms")))
    || (why == "invalid type" && exists f :: f in fs && KnownName(f.name) && IntOf(f.value).None?)
    || (why == "missing field" && (!HasField(fs, "mode") || !HasField(fs, "pid") || !HasField(fs, "period_ms")))
    || (why == "unsupported mode" && HasValue(fs, "mode", NotOne()))
    || (why == "pid out of range" && HasValue(fs, "pid", NoByte()))
    || (why == "period_ms out of range" && HasValue(fs, "period_ms", NoPeriod()))
  }

  predicate EntryFault(j: Json, why: string) {
    if IsNode(j, Object) then FieldsFault(Members(j.body), why) else why == "invalid type: entry"
  }

  /** One of the entries listed has the fault, or they have it together. */
  ghost predicate ListFault(js: seq<Json>, why: string) {
    || (exists j :: j in js && EntryFault(j, why))
    || (why == "too many entries" && |js| > 32)
    || (why == "duplicate entry" &&
        exists a, b, d: Entry, e: Entry ::
          0 <= a < b < |js| && Denotes(js[a], d) && Denotes(js[b], e) && d.mode == e.mode && d.pid == e.pid)
  }

  ghost predicate TopFault(fs: seq<Field>, why: string) {
    || (why == "unknown field" && exists f :: f in fs && f.name != "version" && f.name != "entries")
    || (why == "invalid type: version" && exists f :: f in fs && f.name == "version" && IntOf(f.value).None?)
    || (why == "unsupported version" && HasValue(fs, "version", NotOne()))
    || (why == "invalid type: entries" && exists f :: f in fs && f.name == "entries" && !IsNode(f.value, Array))
    || (why == "missing field" && (!HasField(fs, "version") || !HasField(fs, "entries")))
    || ListFault(Nodes(Named(fs, "entries")), why)
  }

  ghost predicate BodyFault(j: Json, why: string) {
    if IsNode(j, Object) then TopFault(Members(j.body), why) else why == "body must be an object"
  }

  // ---- an entry ----------------------------------------------------------

  /** What is known of the fields read so far: each known one was given. */
  predicate Given(fs: seq<Field>, f: Fields) {
    && (f.mode.Some? ==> HasValue(fs, "mode", v => v == f.mode.value))
    && (f.pid.Some? ==> HasValue(fs, "pid", v => v == f.pid.value))
    && (f.period.Some? ==> HasValue(fs, "period_ms", v => v == f.period.value))
    && (HasField(fs, "mode") ==> f.mode.Some?) && (HasField(fs, "pid") ==> f.pid.Some?)
    && (HasField(fs, "period_ms") ==> f.period.Some?)
  }

  lemma ValueMore(fs: seq<Field>, f: Field, name: string, bad: int -> bool)
    ensures HasValue(fs + [f], name, bad) <==>
            HasValue(fs, name, bad) || (f.name == name && IntOf(f.value).Some? && bad(IntOf(f.value).value))
    ensures HasField(fs + [f], name) <==> HasField(fs, name) || f.name == name
  {
    assert f in fs + [f];
    assert forall g :: g in fs ==> g in fs + [f];
  }

  lemma TwiceNow(fs: seq<Field>, f: Field, name: string)
    requires HasField(fs, name) && f.name == name
    ensures Twice(fs + [f], name)
  {
    var g :| g in fs && g.name == name;
    var i :| 0 <= i < |fs| && fs[i] == g;
    assert (fs + [f])[i] == g && (fs + [f])[|fs|] == f;
  }

  lemma ValueIsField(fs: seq<Field>, name: string, bad: int -> bool)
    requires HasValue(fs, name, bad)
    ensures HasField(fs, name)
  {
  }

  /** One field of an entry, behind the ones read. */
  lemma FieldReason(fs: seq<Field>, f: Fields, name: string, j: Json)
    requires Given(fs, f)
    ensures var now := fs + [Field(name, j)];
            match SetField(f, name, j)
            case Bad(why) => FieldsFault(now, why)
            case Good(g) => Given(now, g)
  {
    hide HasValue, HasField, Twice, IntOf;
    var x := Field(name, j);
    var now := fs + [x];
    assert x in now;
    if f.mode.Some? {
      ValueIsField(fs, "mode", v => v == f.mode.value);
      ValueMore(fs, x, "mode", v => v == f.mode.value);
    }
    if f.pid.Some? {
      ValueIsField(fs, "pid", v => v == f.pid.value);
      ValueMore(fs, x, "pid", v => v == f.pid.value);
    }
    if f.period.Some? {
      ValueIsField(fs, "period_ms", v => v == f.period.value);
      ValueMore(fs, x, "period_ms", v => v == f.period.value);
    }
    if IntOf(j).Some? { ValueMore(fs, x, name, v => v == IntOf(j).value); }
    ValueMore(fs, x, "mode", NotOne());
    ValueMore(fs, x, "pid", NotOne());
    ValueMore(fs, x, "period_ms", NotOne());
    if HasField(fs, name) { TwiceNow(fs, x, name); }
  }

  lemma FaultLasts(before: seq<Field>, fs: seq<Field>, why: string)
    requires before <= fs && FieldsFault(before, why) && why != "missing field"
    ensures FieldsFault(fs, why)
  {
    assert forall f :: f in before ==> f in fs;
    assert forall i :: 0 <= i < |before| ==> before[i] == fs[i];
  }

  lemma {:induction false} FieldsReason(before: seq<Field>, es: Elems, f: Fields)
    requires Given(before, f)
    ensures match ReadFields(es, f)
            case Bad(why) => FieldsFault(before + Flat(es), why)
            case Good(g) => Given(before + Flat(es), g)
    decreases es
  {
    hide Given, FieldsFault, SetField, Flat;
    var x := Field(RawKey(es.key), es.v);
    var now := before + [x];
    FieldReason(before, f, x.name, es.v);
    FieldsBehind(before, es);
    match SetField(f, x.name, es.v)
    case Bad(why) =>
      NotMissing(f, x.name, es.v);
      FaultLasts(now, before + Flat(es), why);
    case Good(g) =>
      if es.next.Some? { FieldsReason(now, es.next.value, g); }
  }

  lemma FieldsBehind(before: seq<Field>, es: Elems)
    ensures var now := before + [Field(RawKey(es.key), es.v)];
            && now <= before + Flat(es)
            && before + Flat(es) == if es.next.None? then now else now + Flat(es.next.value)
  {
    hide Flat;
    FlatHead(es);
    if es.next.Some? { Regroup(before, [Field(RawKey(es.key), es.v)], Flat(es.next.value)); }
  }

  lemma FlatHead(es: Elems)
    ensures var x := [Field(RawKey(es.key), es.v)]; Flat(es) == if es.next.None? then x else x + Flat(es.next.value)
  {
  }

  lemma NotMissing(f: Fields, name: string, j: Json)
    ensures SetField(f, name, j).Bad? ==> SetField(f, name, j).reason != "missing field"
  {
  }

  lemma NothingGiven()
    ensures Given([], NO_FIELDS)
  {
  }

  lemma SameValue(fs: seq<Field>, name: string, x: int, bad: int -> bool)
    requires HasValue(fs, name, v => v == x) && bad(x)
    ensures HasValue(fs, name, bad)
  {
  }

  lemma EntryOfReason(fs: seq<Field>, f: Fields)
    requires Given(fs, f)
    ensures EntryOf(f).Bad? ==> FieldsFault(fs, EntryOf(f).reason)
  {
    hide HasValue, HasField, Twice;
    if f.mode.Some? && f.mode.value != 1 { SameValue(fs, "mode", f.mode.value, NotOne()); }
    if f.pid.Some? && !(0 <= f.pid.value <= 255) { SameValue(fs, "pid", f.pid.value, NoByte()); }
    if f.period.Some? && !(100 <= f.period.value <= 60000) { SameValue(fs, "period_ms", f.period.value, NoPeriod()); }
  }

  lemma EntryReason(j: Json)
    ensures ReadEntry(j).Bad? ==> EntryFault(j, ReadEntry(j).reason)
  {
    hide Given, FieldsFault, EntryOf, ReadFields;
    NothingGiven();
    if IsNode(j, Object) {
      if j.body.Empty? {
        EntryOfReason([], NO_FIELDS);
      } else {
        FieldsReason([], j.body.elems, NO_FIELDS);
        assert [] + Flat(j.body.elems) == Flat(j.body.elems);
        if ReadFields(j.body.elems, NO_FIELDS).Good? {
          EntryOfReason(Flat(j.body.elems), ReadFields(j.body.elems, NO_FIELDS).value);
        }
      }
    }
  }

  // ---- the entries -------------------------------------------------------

  /** The plan so far comes from the nodes so far. */
  ghost predicate From(plan: seq<Entry>, seen: seq<Json>) {
    |plan| == |seen| && forall e :: e in plan ==> exists i :: 0 <= i < |seen| && Denotes(seen[i], e)
  }

  lemma FromMore(plan: seq<Entry>, seen: seq<Json>, j: Json, e: Entry, q: seq<Entry>)
    requires From(plan, seen) && Denotes(j, e) && Insert(plan, e) == Good(q)
    ensures From(q, seen + [j])
  {
    hide Denotes, SameKey;
    var now := seen + [j];
    assert now[|seen|] == j;
    forall x | x in q ensures exists i :: 0 <= i < |now| && Denotes(now[i], x) {
      if x in plan {
        var i :| 0 <= i < |seen| && Denotes(seen[i], x);
        assert now[i] == seen[i];
      } else {
        assert x == e;
      }
    }
  }

  lemma SameKeySeen(plan: seq<Entry>, seen: seq<Json>, j: Json, e: Entry, more: seq<Json>)
    requires From(plan, seen) && Denotes(j, e) && Insert(plan, e).Bad? && seen + [j] <= more
    ensures Insert(plan, e).reason == "duplicate entry" && ListFault(more, "duplicate entry")
  {
    hide Denotes, EntryFault;
    var d := plan[Place(plan, e)];
    assert d in plan;
    var a :| 0 <= a < |seen| && Denotes(seen[a], d);
    assert more[a] == (seen + [j])[a] == seen[a] && more[|seen|] == (seen + [j])[|seen|] == j;
  }

  lemma EntryIn(js: seq<Json>, j: Json, why: string)
    requires j in js && EntryFault(j, why)
    ensures ListFault(js, why)
  {
  }

  lemma {:induction false} EntriesReason(seen: seq<Json>, es: Elems, plan: seq<Entry>, rest: seq<Json>)
    requires From(plan, seen)
    ensures var all := seen + Values(Flat(es)) + rest;
            match ReadEntries(es, plan)
            case Bad(why) => ListFault(all, why)
            case Good(q) => From(q, seen + Values(Flat(es)))
    decreases es
  {
    hide From, ListFault, EntryFault, Denotes, ReadEntry, Insert, Flat;
    var js := Values(Flat(es));
    var all := seen + js + rest;
    ValuesHead(es);
    assert all[|seen|] == js[0] == es.v && es.v in all;
    Counted(plan, seen);
    EntryReason(es.v);
    if |plan| >= PLAN_MAX {
      TooMany(all);
    } else if ReadEntry(es.v).Bad? {
      EntryIn(all, es.v, ReadEntry(es.v).reason);
    } else {
      var e := ReadEntry(es.v).value;
      EntryRead(es.v, e);
      assert seen + [es.v] <= all;
      if Insert(plan, e).Bad? {
        SameKeySeen(plan, seen, es.v, e, all);
      } else {
        FromMore(plan, seen, es.v, e, Insert(plan, e).value);
        OneSeen(seen, es);
        if es.next.Some? { EntriesReason(seen + [es.v], es.next.value, Insert(plan, e).value, rest); }
      }
    }
  }

  lemma OneSeen(seen: seq<Json>, es: Elems)
    ensures seen + Values(Flat(es)) == seen + [es.v] + Later(es)
    ensures es.next.None? ==> seen + Values(Flat(es)) == seen + [es.v]
  {
    hide Flat, Values;
    ValuesHead(es);
    NothingLater(es);
    Regroup(seen, [es.v], Later(es));
  }

  lemma NothingLater(es: Elems)
    ensures es.next.None? ==> Later(es) == []
  {
  }

  lemma Regroup<T>(a: seq<T>, b: seq<T>, c: seq<T>)
    ensures a + (b + c) == a + b + c
  {
  }

  lemma ValuesHead(es: Elems)
    ensures Values(Flat(es)) == [es.v] + Later(es)
  {
  }

  lemma Counted(plan: seq<Entry>, seen: seq<Json>)
    requires From(plan, seen)
    ensures |plan| == |seen|
  {
  }

  lemma TooMany(js: seq<Json>)
    requires |js| > 32
    ensures ListFault(js, "too many entries")
  {
  }

  // ---- the top level -----------------------------------------------------

  /** The top level read so far: its plan is that of the arrays so far. */
  ghost predicate Read(t: Top, before: seq<Field>) {
    && From(t.plan, Nodes(Named(before, "entries")))
    && (t.version <==> HasField(before, "version")) && (t.entries <==> HasField(before, "entries"))
    && |t.plan| <= PLAN_MAX
  }

  lemma {:induction false} NamedJoin(a: seq<Field>, b: seq<Field>, name: string)
    ensures Named(a + b, name) == Named(a, name) + Named(b, name)
  {
    if a == [] {
      assert a + b == b;
    } else {
      NamedJoin(a[1..], b, name);
      assert (a + b)[1..] == a[1..] + b;
    }
  }

  function Listed(j: Json): seq<Json> { if IsNode(j, Array) then Values(Members(j.body)) else [] }

  lemma NodesCons(x: Json, rest: seq<Json>)
    ensures Nodes([x] + rest) == Listed(x) + Nodes(rest)
  {
    hide Values, Members;
    assert ([x] + rest)[1..] == rest;
  }

  lemma NoNodes(b: seq<Json>)
    ensures Nodes([] + b) == Nodes([]) + Nodes(b)
  {
    assert [] + b == b;
  }

  lemma {:induction false} NodesJoin(a: seq<Json>, b: seq<Json>)
    ensures Nodes(a + b) == Nodes(a) + Nodes(b)
  {
    hide Nodes, Listed;
    if a == [] {
      NoNodes(b);
    } else {
      NodesJoin(a[1..], b);
      NodesCons(a[0], a[1..]);
      NodesCons(a[0], a[1..] + b);
      Regroup(Listed(a[0]), Nodes(a[1..]), Nodes(b));
      assert a == [a[0]] + a[1..];
      Regroup([a[0]], a[1..], b);
    }
  }

  lemma NodesOfOne(f: Field)
    ensures Nodes(Named([f], "entries")) == Here(f)
  {
    assert [f][1..] == [];
    if f.name == "entries" { assert Named([f], "entries") == [f.value] && [f.value][1..] == []; }
  }

  lemma ListedJoin(before: seq<Field>, f: Field, later: seq<Field>)
    ensures Nodes(Named(before + [f] + later, "entries")) ==
            Nodes(Named(before, "entries")) + Here(f) + Nodes(Named(later, "entries"))
    ensures Nodes(Named(before + [f], "entries")) == Nodes(Named(before, "entries")) + Here(f)
  {
    hide Nodes, Named, Here;
    NamedJoin(before, [f], "entries");
    NamedJoin(before + [f], later, "entries");
    NodesJoin(Named(before, "entries"), Named([f], "entries"));
    NodesJoin(Named(before + [f], "entries"), Named(later, "entries"));
    NodesOfOne(f);
  }

  lemma {:induction false} PlanCounts(es: Elems, plan: seq<Entry>)
    requires |plan| <= PLAN_MAX
    ensures ReadEntries(es, plan).Good? ==> |ReadEntries(es, plan).value| <= PLAN_MAX
    decreases es
  {
    hide ReadEntry;
    if |plan| < PLAN_MAX && ReadEntry(es.v).Good? && es.next.Some? && Insert(plan, ReadEntry(es.v).value).Good? {
      PlanCounts(es.next.value, Insert(plan, ReadEntry(es.v).value).value);
    }
  }

  /** One field of the top level, with others before and behind. */
  lemma TopFieldReason(before: seq<Field>, t: Top, f: Field, later: seq<Field>)
    requires Read(t, before)
    ensures match ReadTopField(t, f.name, f.value)
            case Bad(why) => TopFault(before + [f] + later, why)
            case Good(u) => Read(u, before + [f])
  {
    hide From, ListFault, HasValue, Nodes, Named, ReadEntries, IntOf;
    var fs := before + [f] + later;
    assert fs[|before|] == f && f in fs;
    ListedJoin(before, f, later);
    FieldSeen(before, f, "version");
    FieldSeen(before, f, "entries");
    if f.name == "version" {
      assert Here(f) == [] && Nodes(Named(before, "entries")) + [] == Nodes(Named(before, "entries"));
      if IntOf(f.value).Some? && IntOf(f.value).value != 1 { VersionFault(fs, f); }
    } else if f.name == "entries" && IsNode(f.value, Array) {
      var seen := Nodes(Named(before, "entries"));
      if f.value.body.Filled? {
        EntriesReason(seen, f.value.body.elems, t.plan, Nodes(Named(later, "entries")));
        PlanCounts(f.value.body.elems, t.plan);
      } else {
        assert Here(f) == [] && seen + [] == seen;
      }
    }
  }

  lemma FieldSeen(before: seq<Field>, f: Field, name: string)
    ensures HasField(before + [f], name) <==> HasField(before, name) || f.name == name
  {
    assert f in before + [f];
    assert forall g :: g in before ==> g in before + [f];
  }

  lemma VersionFault(fs: seq<Field>, f: Field)
    requires f in fs && f.name == "version" && IntOf(f.value).Some? && IntOf(f.value).value != 1
    ensures HasValue(fs, "version", NotOne())
  {
    assert NotOne()(IntOf(f.value).value);
  }

  lemma {:induction false} TopReason(before: seq<Field>, es: Elems, t: Top)
    requires Read(t, before)
    ensures match ReadTop(es, t)
            case Bad(why) => TopFault(before + Flat(es), why)
            case Good(u) => Read(u, before + Flat(es))
    decreases es
  {
    hide Read, TopFault, ListFault, ReadTopField;
    var f := Field(RawKey(es.key), es.v);
    var later := if es.next.None? then [] else Flat(es.next.value);
    assert before + Flat(es) == before + [f] + later;
    TopFieldReason(before, t, f, later);
    match ReadTopField(t, f.name, f.value)
    case Bad(_) =>
    case Good(u) =>
      if es.next.None? {
        assert before + [f] + later == before + [f];
      } else {
        TopReason(before + [f], es.next.value, u);
      }
  }

  lemma NothingRead()
    ensures Read(EMPTY_TOP, [])
  {
    assert Named([], "entries") == [] && Nodes([]) == [];
  }

  lemma FinishReason(t: Top, fs: seq<Field>)
    requires Read(t, fs)
    ensures PlanContract.Finish(t).Invalid? ==> TopFault(fs, PlanContract.Finish(t).reason)
    ensures !PlanContract.Finish(t).Malformed?
  {
    hide ListFault, From;
  }

  /** The reason given names a fault that the body has. */
  lemma ReasonHolds(j: Json)
    ensures match Contract(j)
            case Malformed => false
            case Accepted(_) => true
            case Invalid(why) => BodyFault(j, why)
  {
    hide Read, TopFault, ReadTop, PlanContract.Finish;
    NothingRead();
    if IsNode(j, Object) {
      if j.body.Empty? {
        FinishReason(EMPTY_TOP, []);
      } else {
        var es := j.body.elems;
        TopReason([], es, EMPTY_TOP);
        assert [] + Flat(es) == Flat(es);
        if ReadTop(es, EMPTY_TOP).Good? { FinishReason(ReadTop(es, EMPTY_TOP).value, Flat(es)); }
      }
    }
  }

  /** 400 or not: MALFORMED exactly if the text is longer than 4096 bytes or is
      the text of no tree. */
  lemma MalformedIff(s: string)
    ensures Answer(s) == Malformed <==> |s| > 4096 || forall j, w :: !TreeOf(s, j, w, TakenEscape)
  {
    hide Contract, TreeOf, ParseValue;
    if ParseText(s).Some? {
      var j := ParseText(s).value;
      ReasonHolds(j);
      AcceptedTextIsTree(s, j, ParseValue(s, DEPTH_MAX).value.1);
    }
    forall j, w | TreeOf(s, j, w, TakenEscape) ensures ParseText(s) == Some(j) { AcceptedTextIsTree(s, j, w); }
  }
}
