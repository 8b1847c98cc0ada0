/** The meaning of a body, stated without the reader's loops: which trees are
    plans, and that the plan is the sorted form of the entries listed. */
module PlanMeaning {
  import opened Options
  import opened Json
  import opened PlanContract

  datatype Field = Field(name: string, value: Json)

  /** The members of an object, or the elements of an array, in text order. */
  function Flat(es: Elems): (fs: seq<Field>)
    ensures |fs| > 0
    decreases es
  {
    [Field(RawKey(es.key), es.v)] + if es.next.None? then [] else Flat(es.next.value)
  }

  function Members(b: Body): seq<Field> {
    if b.Empty? then [] else Flat(b.elems)
  }

  /** The values given to one name. */
  function Named(fs: seq<Field>, name: string): seq<Json> {
    if fs == [] then []
    else if fs[0].name == name then [fs[0].value] + Named(fs[1..], name)
    else Named(fs[1..], name)
  }

  /** The name occurs exactly once, with an integer value. */
  predicate OneInt(fs: seq<Field>, name: string, v: int) {
    |Named(fs, name)| == 1 && IntOf(Named(fs, name)[0]) == Some(v)
  }

  predicate KnownName(name: string) { name == "mode" || name == "pid" || name == "period_ms" }

  /** j is an object with exactly the three fields of e, in any order. */
  predicate Denotes(j: Json, e: Entry) {
    && EntryOk(e)
    && IsNode(j, Object)
    && var fs := Members(j.body);
       && (forall i :: 0 <= i < |fs| ==> KnownName(fs[i].name))
       && OneInt(fs, "mode", e.mode) && OneInt(fs, "pid", e.pid) && OneInt(fs, "period_ms", e.periodMs)
  }

  // ---- one entry ---------------------------------------------------------

  /** f holds what fs says about one name, g being what was known before. */
  predicate Extends(before: Option<int>, fs: seq<Field>, name: string, after: Option<int>) {
    if Named(fs, name) == [] then after == before
    else before.None? && after.Some? && OneInt(fs, name, after.value)
  }

  predicate ExtendsAll(f: Fields, fs: seq<Field>, g: Fields) {
    && (forall i :: 0 <= i < |fs| ==> KnownName(fs[i].name))
    && Extends(f.mode, fs, "mode", g.mode)
    && Extends(f.pid, fs, "pid", g.pid)
    && Extends(f.period, fs, "period_ms", g.period)
  }

  lemma ExtendsHead(before: Option<int>, fs: seq<Field>, name: string, mid: Option<int>, after: Option<int>)
    requires fs != []
    requires if fs[0].name == name then before.None? && mid.Some? && mid == IntOf(fs[0].value) else mid == before
    ensures Extends(before, fs, name, after) <==> Extends(mid, fs[1..], name, after)
  {
  }

  lemma {:induction false} FieldsRead(es: Elems, f: Fields, g: Fields)
    ensures ReadFields(es, f) == Good(g) <==> ExtendsAll(f, Flat(es), g)
    decreases es
  {
    var fs := Flat(es);
    var m := SetField(f, fs[0].name, fs[0].value);
    var tail := fs[1..];
    assert tail == if es.next.None? then [] else Flat(es.next.value);
    if m.Good? {
      ExtendsHead(f.mode, fs, "mode", m.value.mode, g.mode);
      ExtendsHead(f.pid, fs, "pid", m.value.pid, g.pid);
      ExtendsHead(f.period, fs, "period_ms", m.value.period, g.period);
      assert fs == [fs[0]] + tail;
      if es.next.Some? { FieldsRead(es.next.value, m.value, g); }
    }
  }

  function FieldsFor(e: Entry): Fields { Fields(Some(e.mode), Some(e.pid), Some(e.periodMs)) }

  lemma NothingGiven(e: Entry)
    ensures !ExtendsAll(NO_FIELDS, [], FieldsFor(e))
  {
  }

  lemma EntryOfIff(e: Entry)
    ensures forall g :: EntryOf(g) == Good(e) <==> g == FieldsFor(e) && EntryOk(e)
  {
  }

  lemma DenotesFields(j: Json, e: Entry)
    ensures Denotes(j, e) <==> IsNode(j, Object) && EntryOk(e) && ExtendsAll(NO_FIELDS, Members(j.body), FieldsFor(e))
  {
    hide Named, IntOf, Members, KnownName, EntryOk;
  }

  /** An entry object is accepted as e exactly when it denotes e. */
  lemma EntryRead(j: Json, e: Entry)
    ensures ReadEntry(j) == Good(e) <==> Denotes(j, e)
  {
    hide ExtendsAll, Denotes;
    NothingGiven(e);
    DenotesFields(j, e);
    EntryOfIff(e);
    if IsNode(j, Object) && j.body.Filled? { FieldsRead(j.body.elems, NO_FIELDS, FieldsFor(e)); }
  }

  // ---- sorted insertion --------------------------------------------------

  function InsertAll(p: seq<Entry>, list: seq<Entry>): Reading<seq<Entry>>
    decreases |list|
  {
    if list == [] then Good(p)
    else
      var q :- Insert(p, list[0]);
      InsertAll(q, list[1..])
  }

  predicate Distinct(list: seq<Entry>) {
    forall i, j :: 0 <= i < j < |list| ==> !SameKey(list[i], list[j])
  }

  /** No entry of p has the key of e. */
  predicate Free(p: seq<Entry>, e: Entry) {
    forall i :: 0 <= i < |p| ==> !SameKey(p[i], e)
  }

  /** No entry of p has the key of one of the list. */
  predicate Apart(p: seq<Entry>, list: seq<Entry>) {
    forall j :: 0 <= j < |list| ==> Free(p, list[j])
  }

  /** Everything behind the place comes after e. */
  lemma PlaceSplits(p: seq<Entry>, e: Entry, i: nat)
    requires Sorted(p) && Place(p, e) <= i < |p| && !SameKey(p[Place(p, e)], e)
    ensures Before(e, p[i])
  {
    var at := Place(p, e);
    assert i > at ==> Before(p[at], p[i]);
  }

  lemma PlaceFree(p: seq<Entry>, e: Entry)
    requires Sorted(p)
    ensures Free(p, e) <==> !(Place(p, e) < |p| && SameKey(p[Place(p, e)], e))
  {
    var at := Place(p, e);
    if !(at < |p| && SameKey(p[at], e)) {
      forall i | 0 <= i < |p| ensures !SameKey(p[i], e) {
        if i >= at { PlaceSplits(p, e, i); }
      }
    }
  }

  lemma InsertOne(p: seq<Entry>, e: Entry)
    requires Sorted(p)
    ensures Insert(p, e).Good? <==> Free(p, e)
    ensures Insert(p, e).Good? ==>
              var q := Insert(p, e).value;
              Sorted(q) && multiset(q) == multiset(p) + multiset{e} && |q| == |p| + 1
  {
    hide Sorted, Free, Before, SameKey;
    var at := Place(p, e);
    PlaceFree(p, e);
    if Insert(p, e).Good? {
      forall i | at <= i < |p| ensures Before(e, p[i]) { PlaceSplits(p, e, i); }
      OneMore(p, at, e);
      SortedInsert(p, at, e);
    }
  }

  lemma OneMore(p: seq<Entry>, at: nat, e: Entry)
    requires at <= |p|
    ensures multiset(p[..at] + [e] + p[at..]) == multiset(p) + multiset{e}
  {
    assert p == p[..at] + p[at..];
  }

  lemma SortedInsert(p: seq<Entry>, at: nat, e: Entry)
    requires Sorted(p) && at <= |p|
    requires forall i :: 0 <= i < at ==> Before(p[i], e)
    requires forall i :: at <= i < |p| ==> Before(e, p[i])
    ensures Sorted(p[..at] + [e] + p[at..])
  {
    var q := p[..at] + [e] + p[at..];
    forall i, j | 0 <= i < j < |q| ensures Before(q[i], q[j]) {
      assert q[i] == if i < at then p[i] else if i == at then e else p[i - 1];
      assert q[j] == if j < at then p[j] else if j == at then e else p[j - 1];
    }
  }

  lemma NothingApart(p: seq<Entry>)
    ensures Distinct([]) && Apart(p, [])
  {
  }

  lemma DistinctHead(e: Entry, tail: seq<Entry>)
    ensures Distinct([e] + tail) <==> Distinct(tail) && Apart([e], tail)
  {
    var list := [e] + tail;
    assert forall i :: 0 <= i < |tail| ==> list[i + 1] == tail[i];
    if Distinct(tail) && Apart([e], tail) {
      forall i, j | 0 <= i < j < |list| ensures !SameKey(list[i], list[j]) {
        if i == 0 { assert Free([e], tail[j - 1]) && [e][0] == e; } else { assert list[i] == tail[i - 1]; }
      }
    }
    if Distinct(list) {
      forall j | 0 <= j < |tail| ensures Free([e], tail[j]) { assert list[0] == e && list[j + 1] == tail[j]; }
    }
  }

  lemma ApartHead(p: seq<Entry>, e: Entry, tail: seq<Entry>)
    ensures Apart(p, [e] + tail) <==> Free(p, e) && Apart(p, tail)
  {
    hide Free;
    var list := [e] + tail;
    assert list[0] == e && forall i :: 0 <= i < |tail| ==> list[i + 1] == tail[i];
  }

  lemma KeysOf(p: seq<Entry>, e: Entry, q: seq<Entry>, x: Entry)
    requires Insert(p, e) == Good(q)
    ensures Free(q, x) <==> Free([e], x) && Free(p, x)
  {
    var at := Place(p, e);
    assert q == p[..at] + [e] + p[at..];
    assert q[at] == e && [e][0] == e;
    forall i | 0 <= i < |p| ensures p[i] == q[if i < at then i else i + 1] {}
  }

  lemma ApartAfter(p: seq<Entry>, e: Entry, q: seq<Entry>, list: seq<Entry>)
    requires Insert(p, e) == Good(q)
    ensures Apart(q, list) <==> Apart([e], list) && Apart(p, list)
  {
    hide Free, Insert;
    forall j | 0 <= j < |list| ensures Free(q, list[j]) <==> Free([e], list[j]) && Free(p, list[j]) {
      KeysOf(p, e, q, list[j]);
    }
  }

  /** Insertion succeeds exactly on distinct keys, and only reorders. */
  lemma {:induction false} InsertAllMeaning(p: seq<Entry>, list: seq<Entry>)
    requires Sorted(p)
    ensures InsertAll(p, list).Good? <==> Distinct(list) && Apart(p, list)
    ensures InsertAll(p, list).Good? ==>
              var q := InsertAll(p, list).value;
              Sorted(q) && multiset(q) == multiset(p) + multiset(list) && |q| == |p| + |list|
    decreases |list|
  {
    hide Distinct, Apart, Free, Sorted, Insert;
    if list == [] {
      NothingApart(p);
    } else {
      var e, tail := list[0], list[1..];
      assert list == [e] + tail;
      InsertOne(p, e);
      DistinctHead(e, tail);
      ApartHead(p, e, tail);
      if Insert(p, e).Good? {
        var q := Insert(p, e).value;
        InsertAllMeaning(q, tail);
        ApartAfter(p, e, q, tail);
        assert InsertAll(p, list) == InsertAll(q, tail);
      }
    }
  }

  lemma {:induction false} InsertAllAppend(p: seq<Entry>, a: seq<Entry>, b: seq<Entry>)
    ensures InsertAll(p, a + b) ==
            match InsertAll(p, a)
            case Bad(why) => Bad(why)
            case Good(q) => InsertAll(q, b)
    decreases |a|
  {
    if a == [] {
      assert a + b == b;
    } else {
      assert (a + b)[1..] == a[1..] + b;
      if Insert(p, a[0]).Good? { InsertAllAppend(Insert(p, a[0]).value, a[1..], b); }
    }
  }

  // ---- the list of entries -----------------------------------------------

  function Values(fs: seq<Field>): (js: seq<Json>)
    ensures |js| == |fs| && forall i :: 0 <= i < |fs| ==> js[i] == fs[i].value
  {
    seq(|fs|, i requires 0 <= i < |fs| => fs[i].value)
  }

  predicate Lists(js: seq<Json>, list: seq<Entry>) {
    |js| == |list| && forall i :: 0 <= i < |js| ==> Denotes(js[i], list[i])
  }

  function Later(es: Elems): seq<Json> { if es.next.None? then [] else Values(Flat(es.next.value)) }

  lemma ListsHead(es: Elems, list: seq<Entry>)
    requires list != []
    ensures Lists(Values(Flat(es)), list) <==> Denotes(es.v, list[0]) && Lists(Later(es), list[1..])
  {
    hide Denotes;
    var js := Values(Flat(es));
    assert js[0] == es.v && js[1..] == Later(es);
    if Denotes(es.v, list[0]) && Lists(Later(es), list[1..]) {
      forall i | 0 <= i < |list| ensures Denotes(js[i], list[i]) {
        if i > 0 { assert js[i] == js[1..][i - 1] && list[i] == list[1..][i - 1]; }
      }
    }
    if Lists(js, list) {
      forall i | 0 <= i < |list| - 1 ensures Denotes(js[1..][i], list[1..][i]) {
        assert js[i + 1] == js[1..][i] && list[i + 1] == list[1..][i];
      }
    }
  }

  lemma {:induction false} EntriesAccepted(es: Elems, plan: seq<Entry>, list: seq<Entry>)
    requires Sorted(plan) && Lists(Values(Flat(es)), list) && |plan| + |list| <= PLAN_MAX
    ensures ReadEntries(es, plan) == InsertAll(plan, list)
    decreases es
  {
    hide Denotes, Insert, ReadEntry, Sorted, Free;
    ListsHead(es, list);
    EntryRead(es.v, list[0]);
    InsertOne(plan, list[0]);
    if es.next.Some? && Insert(plan, list[0]).Good? {
      EntriesAccepted(es.next.value, Insert(plan, list[0]).value, list[1..]);
    }
  }

  lemma {:induction false} EntriesDenoted(es: Elems, plan: seq<Entry>) returns (list: seq<Entry>)
    requires Sorted(plan) && ReadEntries(es, plan).Good?
    ensures Lists(Values(Flat(es)), list) && |plan| + |list| <= PLAN_MAX
    ensures InsertAll(plan, list) == ReadEntries(es, plan)
    decreases es
  {
    hide Denotes, Insert, ReadEntry, Sorted;
    var e := ReadEntry(es.v).value;
    EntryRead(es.v, e);
    InsertOne(plan, e);
    var tail := [];
    if es.next.Some? { tail := EntriesDenoted(es.next.value, Insert(plan, e).value); }
    list := [e] + tail;
    assert list[1..] == tail;
    ListsHead(es, list);
  }

  // ---- the whole body ----------------------------------------------------

  predicate TopFieldOk(f: Field) {
    || (f.name == "version" && IntOf(f.value) == Some(1))
    || (f.name == "entries" && IsNode(f.value, Array))
  }

  /** The elements of all the arrays, one array after the other. */
  function Nodes(arrays: seq<Json>): seq<Json> {
    if arrays == [] then []
    else (if IsNode(arrays[0], Array) then Values(Members(arrays[0].body)) else []) + Nodes(arrays[1..])
  }

  predicate FieldsOk(fs: seq<Field>) { forall i :: 0 <= i < |fs| ==> TopFieldOk(fs[i]) }

  predicate TopOk(fs: seq<Field>, list: seq<Entry>) {
    FieldsOk(fs) && Lists(Nodes(Named(fs, "entries")), list)
  }

  /** j is a version-1 body that lists the given entries in text order. Every
      "entries" array counts: repeated ones are taken one after the other. */
  predicate IsBodyOf(j: Json, list: seq<Entry>) {
    && IsNode(j, Object)
    && var fs := Members(j.body);
       TopOk(fs, list) && Named(fs, "version") != [] && Named(fs, "entries") != []
  }

  function Here(f: Field): seq<Json> {
    if f.name == "entries" && IsNode(f.value, Array) then Values(Members(f.value.body)) else []
  }

  lemma FieldsHead(fs: seq<Field>)
    requires fs != []
    ensures FieldsOk(fs) <==> TopFieldOk(fs[0]) && FieldsOk(fs[1..])
  {
    hide TopFieldOk;
    assert fs == [fs[0]] + fs[1..];
  }

  lemma TopHead(fs: seq<Field>, list: seq<Entry>, k: nat)
    requires fs != [] && k <= |list| && k == |Here(fs[0])|
    ensures TopOk(fs, list) <==>
              TopFieldOk(fs[0]) && Lists(Here(fs[0]), list[..k]) && TopOk(fs[1..], list[k..])
  {
    hide FieldsOk, TopFieldOk, Lists, Here, Nodes, Named;
    NodesHead(fs);
    ListsSplit(Here(fs[0]), Nodes(Named(fs[1..], "entries")), list);
    FieldsHead(fs);
  }

  lemma NodesHead(fs: seq<Field>)
    requires fs != []
    ensures Nodes(Named(fs, "entries")) == Here(fs[0]) + Nodes(Named(fs[1..], "entries"))
  {
    if fs[0].name == "entries" {
      assert Named(fs, "entries") == [fs[0].value] + Named(fs[1..], "entries");
      assert Named(fs, "entries")[1..] == Named(fs[1..], "entries");
    }
  }

  lemma ListsSplit(a: seq<Json>, b: seq<Json>, list: seq<Entry>)
    requires |a| <= |list|
    ensures Lists(a + b, list) <==> Lists(a, list[..|a|]) && Lists(b, list[|a|..])
  {
    if Lists(a, list[..|a|]) && Lists(b, list[|a|..]) {
      forall i | 0 <= i < |a + b| ensures Denotes((a + b)[i], list[i]) {
        if i >= |a| { assert list[i] == list[|a|..][i - |a|]; }
      }
    }
    if Lists(a + b, list) {
      forall i | 0 <= i < |b| ensures Denotes(b[i], list[|a|..][i]) { assert b[i] == (a + b)[|a| + i]; }
      forall i | 0 <= i < |a| ensures Denotes(a[i], list[..|a|][i]) { assert a[i] == (a + b)[i]; }
    }
  }

  /** What one field does to the top level, given the entries it lists. */
  lemma FieldAccepted(t: Top, f: Field, mine: seq<Entry>)
    requires Sorted(t.plan) && TopFieldOk(f) && Lists(Here(f), mine) && |t.plan| + |mine| <= PLAN_MAX
    ensures ReadTopField(t, f.name, f.value) ==
            match InsertAll(t.plan, mine)
            case Bad(why) => Bad(why)
            case Good(q) => Good(Top(t.version || f.name == "version", t.entries || f.name == "entries", q))
  {
    if f.name == "entries" {
      if f.value.body.Filled? { EntriesAccepted(f.value.body.elems, t.plan, mine); }
    }
  }

  lemma FieldDenoted(t: Top, f: Field) returns (mine: seq<Entry>)
    requires Sorted(t.plan) && ReadTopField(t, f.name, f.value).Good? && |t.plan| <= PLAN_MAX
    ensures TopFieldOk(f) && Lists(Here(f), mine) && |t.plan| + |mine| <= PLAN_MAX
  {
    mine := [];
    if f.name == "entries" && f.value.body.Filled? {
      mine := EntriesDenoted(f.value.body.elems, t.plan);
    }
  }

  function TopAfter(t: Top, fs: seq<Field>, plan: seq<Entry>): Top {
    Top(t.version || Named(fs, "version") != [], t.entries || Named(fs, "entries") != [], plan)
  }

  /** One turn of the top level: rest is what the later fields list. */
  lemma FirstAccepted(fs: seq<Field>, t: Top, list: seq<Entry>) returns (u: Top, rest: seq<Entry>)
    requires fs != [] && Sorted(t.plan) && TopOk(fs, list) && |t.plan| + |list| <= PLAN_MAX
    requires InsertAll(t.plan, list).Good?
    ensures ReadTopField(t, fs[0].name, fs[0].value) == Good(u)
    ensures Sorted(u.plan) && TopOk(fs[1..], rest) && |u.plan| + |rest| <= PLAN_MAX
    ensures InsertAll(u.plan, rest) == InsertAll(t.plan, list)
    ensures u.version == (t.version || fs[0].name == "version") && u.entries == (t.entries || fs[0].name == "entries")
  {
    hide ReadTopField, TopOk, Lists, Here, Sorted, Distinct, Apart;
    var k := |Here(fs[0])|;
    HereFits(fs, list);
    TopHead(fs, list, k);
    FieldAccepted(t, fs[0], list[..k]);
    assert list == list[..k] + list[k..];
    InsertAllAppend(t.plan, list[..k], list[k..]);
    InsertAllMeaning(t.plan, list[..k]);
    u := ReadTopField(t, fs[0].name, fs[0].value).value;
    rest := list[k..];
  }

  lemma {:induction false} TopAccepted(es: Elems, t: Top, list: seq<Entry>)
    requires Sorted(t.plan) && TopOk(Flat(es), list) && |t.plan| + |list| <= PLAN_MAX
    requires InsertAll(t.plan, list).Good?
    ensures ReadTop(es, t) == Good(TopAfter(t, Flat(es), InsertAll(t.plan, list).value))
    decreases es
  {
    hide ReadTopField, TopOk, Named, Sorted;
    var fs := Flat(es);
    assert fs[1..] == if es.next.None? then [] else Flat(es.next.value);
    var u, rest := FirstAccepted(fs, t, list);
    NamedHead(fs, "version");
    NamedHead(fs, "entries");
    if es.next.Some? { TopAccepted(es.next.value, u, rest); } else { NothingListed(rest); }
  }

  lemma NothingListed(list: seq<Entry>)
    requires TopOk([], list)
    ensures list == [] && Named([], "version") == Named([], "entries") == []
  {
    assert Named([], "entries") == [] && Nodes([]) == [];
  }

  lemma NamedHead(fs: seq<Field>, name: string)
    requires fs != []
    ensures Named(fs, name) != [] <==> fs[0].name == name || Named(fs[1..], name) != []
  {
  }

  lemma HereFits(fs: seq<Field>, list: seq<Entry>)
    requires fs != [] && TopOk(fs, list)
    ensures |Here(fs[0])| <= |list|
  {
    assert TopFieldOk(fs[0]);
    if fs[0].name == "entries" {
      assert Named(fs, "entries") == [fs[0].value] + Named(fs[1..], "entries");
    }
  }

  lemma {:induction false} TopDenoted(es: Elems, t: Top) returns (list: seq<Entry>)
    requires Sorted(t.plan) && |t.plan| <= PLAN_MAX && ReadTop(es, t).Good?
    ensures TopOk(Flat(es), list) && |t.plan| + |list| <= PLAN_MAX && InsertAll(t.plan, list).Good?
    decreases es
  {
    var fs := Flat(es);
    var tail := if es.next.None? then [] else Flat(es.next.value);
    assert fs[1..] == tail;
    var mine := FieldDenoted(t, fs[0]);
    FieldAccepted(t, fs[0], mine);
    InsertAllMeaning(t.plan, mine);
    var u := ReadTopField(t, fs[0].name, fs[0].value).value;
    var others := [];
    if es.next.Some? { others := TopDenoted(es.next.value, u); }
    list := mine + others;
    assert list[..|mine|] == mine && list[|mine|..] == others;
    TopHead(fs, list, |mine|);
    InsertAllAppend(t.plan, mine, others);
  }

  /** The contract, both ways: a body is accepted with plan p exactly when it
      lists at most 32 entries with distinct keys and p is their sorted form. */
  lemma ContractSound(j: Json, p: seq<Entry>) returns (list: seq<Entry>)
    requires Contract(j) == Accepted(p)
    ensures IsBodyOf(j, list) && |list| <= PLAN_MAX && Distinct(list)
    ensures Sorted(p) && multiset(p) == multiset(list)
  {
    var es := j.body.elems;
    list := TopDenoted(es, EMPTY_TOP);
    TopAccepted(es, EMPTY_TOP, list);
    InsertAllMeaning([], list);
  }

  lemma ContractComplete(j: Json, list: seq<Entry>, p: seq<Entry>)
    requires IsBodyOf(j, list) && |list| <= PLAN_MAX && Distinct(list)
    requires Sorted(p) && multiset(p) == multiset(list)
    ensures Contract(j) == Accepted(p)
  {
    InsertAllMeaning([], list);
    TopAccepted(j.body.elems, EMPTY_TOP, list);
    SortedUnique(p, InsertAll([], list).value);
  }

  /** The first entry of a sorted plan comes before the others. */
  lemma FirstBefore(p: seq<Entry>, x: Entry)
    requires Sorted(p) && x in p
    ensures p[0] == x || Before(p[0], x)
  {
  }

  lemma SameFirst(p: seq<Entry>, q: seq<Entry>)
    requires Sorted(p) && Sorted(q) && multiset(p) == multiset(q) && p != []
    ensures q != [] && p[0] == q[0]
  {
    hide Sorted;
    assert p[0] in multiset(q);
    assert q[0] in multiset(p);
    FirstBefore(q, p[0]);
    FirstBefore(p, q[0]);
  }

  lemma DropFirst(p: seq<Entry>)
    requires Sorted(p) && p != []
    ensures Sorted(p[1..]) && multiset(p[1..]) == multiset(p) - multiset{p[0]} && p == [p[0]] + p[1..]
  {
    assert p == [p[0]] + p[1..];
  }

  /** A multiset of entries has one sorted form. */
  lemma {:induction false} SortedUnique(p: seq<Entry>, q: seq<Entry>)
    requires Sorted(p) && Sorted(q) && multiset(p) == multiset(q)
    ensures p == q
    decreases |p|
  {
    if p == [] {
      assert |multiset(q)| == 0;
    } else {
      hide Sorted;
      SameFirst(p, q);
      DropFirst(p);
      DropFirst(q);
      SortedUnique(p[1..], q[1..]);
    }
  }

  /** The order in which a body lists its entries does not matter, nor how it
      is spaced or split into arrays. */
  lemma OrderDoesNotMatter(j: Json, k: Json, a: seq<Entry>, b: seq<Entry>, p: seq<Entry>)
    requires IsBodyOf(j, a) && IsBodyOf(k, b) && multiset(a) == multiset(b)
    requires Contract(j) == Accepted(p)
    ensures Contract(k) == Accepted(p)
  {
    var list := ContractSound(j, p);
    ListsUnique(Nodes(Named(Members(j.body), "entries")), a, list);
    DistinctOfSorted(p, b);
    assert |b| == |multiset(b)| && |multiset(p)| == |p|;
    ContractComplete(k, b, p);
  }

  lemma ListsUnique(js: seq<Json>, a: seq<Entry>, b: seq<Entry>)
    requires Lists(js, a) && Lists(js, b)
    ensures a == b
  {
    forall i | 0 <= i < |a| ensures a[i] == b[i] {
      EntryRead(js[i], a[i]);
      EntryRead(js[i], b[i]);
    }
  }

  /** Whatever has the multiset of a sorted plan has distinct keys. */
  lemma DistinctOfSorted(p: seq<Entry>, b: seq<Entry>)
    requires Sorted(p) && multiset(p) == multiset(b)
    ensures Distinct(b)
  {
    forall i, j | 0 <= i < j < |b| ensures !SameKey(b[i], b[j]) {
      var x, y := b[i], b[j];
      assert x in multiset(p) && y in multiset(p);
      var u :| 0 <= u < |p| && p[u] == x;
      var v :| 0 <= v < |p| && p[v] == y;
      if u == v {
        assert b == b[..j] + b[j..] && b[..j][i] == x && b[j..][0] == x;
        assert multiset(b)[x] == multiset(b[..j])[x] + multiset(b[j..])[x];
        OnceInSorted(p, u);
      } else {
        assert Before(p[u], p[v]) || Before(p[v], p[u]);
      }
    }
  }

  lemma OnceInSorted(p: seq<Entry>, u: nat)
    requires Sorted(p) && u < |p|
    ensures multiset(p)[p[u]] == 1
  {
    var x := p[u];
    assert p == p[..u] + [x] + p[u + 1..];
    assert x !in p[..u] && x !in p[u + 1..];
  }
}
