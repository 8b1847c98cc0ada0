/** The credential store's commit protocol: a flag written 0 before the first
    field and 1 after the last, every write one NVS key. */
module CredCommit {
  import opened Words
  import opened Options

  /** enum CredField, without its name strings. */
  type Field = f: nat | f < COUNT

  const COUNT := 9
  const SSID: Field := 0
  const PASS: Field := 1
  const MQTT_USER: Field := 2
  const MQTT_PASS: Field := 3

  type Fields = map<Field, string>

  /** The NVS namespace: the field keys, `complete` and `gen`. */
  datatype Store = Store(fields: Fields, complete: Option<u8>, gen: u32)

  /** A staged change; g_op with g_stv. */
  datatype Op = Keep | Set(value: string) | Clear

  datatype CommitState = NotProvisioned | Incomplete | Complete

  /** credCommitState on storeState's three facts. */
  function StateOf(s: Store): CommitState {
    if s.complete == Some(1) then Complete
    else if s.complete.None? && s.fields == map[] then NotProvisioned
    else Incomplete
  }

  /** What boot loads: a whole set, or nothing. */
  function Boots(s: Store): Option<Fields> {
    if StateOf(s) == Complete then Some(s.fields) else None
  }

  // ---- checking the set --------------------------------------------------

  predicate Paired(present: seq<bool>)
    requires |present| == COUNT
  {
    (present[SSID] <==> present[PASS]) && (present[MQTT_USER] <==> present[MQTT_PASS])
  }

  predicate PairedFields(fields: Fields) {
    (SSID in fields <==> PASS in fields) && (MQTT_USER in fields <==> MQTT_PASS in fields)
  }

  /** credCheckSet: the field whose partner is missing, if any. */
  function CheckSet(present: seq<bool>): (bad: Option<Field>)
    requires |present| == COUNT
    ensures bad.None? <==> Paired(present)
    ensures bad.Some? ==>
              && !present[bad.value] && bad.value < 4
              && present[if bad.value % 2 == 0 then bad.value + 1 else bad.value - 1]
  {
    if present[SSID] != present[PASS] then Some(if present[SSID] then PASS else SSID)
    else if present[MQTT_USER] != present[MQTT_PASS] then Some(if present[MQTT_USER] then MQTT_PASS else MQTT_USER)
    else None
  }

  /** The set a commit would leave, by presence. */
  function Present(fields: Fields, stage: seq<Op>): (p: seq<bool>)
    requires |stage| == COUNT
    ensures |p| == COUNT
  {
    seq(COUNT, i requires 0 <= i < COUNT => stage[i].Set? || (stage[i].Keep? && i in fields))
  }

  /** The set a commit means to leave. */
  function Wanted(fields: Fields, stage: seq<Op>): Fields
    requires |stage| == COUNT
  {
    map i: Field | stage[i].Set? || (stage[i].Keep? && i in fields) ::
      if stage[i].Set? then stage[i].value else fields[i]
  }

  // ---- writing it --------------------------------------------------------

  datatype Write = PutFlag(v: u8) | PutField(f: Field, value: string) | RemoveField(f: Field) | PutGen(n: u32)

  function Apply(s: Store, w: Write): Store {
    match w
    case PutFlag(v) => s.(complete := Some(v))
    case PutField(f, value) => s.(fields := s.fields[f := value])
    case RemoveField(f) => s.(fields := s.fields - {f})
    case PutGen(n) => s.(gen := n)
  }

  function Applied(s: Store, ws: seq<Write>): Store {
    if ws == [] then s else Apply(Applied(s, ws[..|ws| - 1]), ws[|ws| - 1])
  }

  /** What the loop does about field f, given what the store holds by then. */
  function WritesFor(fields: Fields, op: Op, f: Field): seq<Write> {
    match op
    case Set(v) => [PutField(f, v)]
    case Clear => if f in fields then [RemoveField(f)] else []
    case Keep => []
  }

  function Changed(fields: Fields, op: Op, f: Field): Fields {
    match op
    case Set(v) => fields[f := v]
    case Clear => fields - {f}
    case Keep => fields
  }

  /** The fields after n rounds of the loop. */
  function Merged(fields: Fields, stage: seq<Op>, n: nat): Fields
    requires n <= COUNT == |stage|
  {
    if n == 0 then fields else Changed(Merged(fields, stage, n - 1), stage[n - 1], n - 1)
  }

  /** The writes of the first n rounds. */
  function FieldWrites(fields: Fields, stage: seq<Op>, n: nat): seq<Write>
    requires n <= COUNT == |stage|
  {
    if n == 0 then []
    else FieldWrites(fields, stage, n - 1) + WritesFor(Merged(fields, stage, n - 1), stage[n - 1], n - 1)
  }

  /** Everything a commit writes, in order. */
  function Writes(s: Store, stage: seq<Op>): seq<Write>
    requires |stage| == COUNT
  {
    [PutFlag(0)] + FieldWrites(s.fields, stage, COUNT) + [PutGen(Wrap(s.gen + 1)), PutFlag(1)]
  }

  // ---- what a cut leaves -------------------------------------------------

  predicate OnlyFields(ws: seq<Write>) { forall i :: 0 <= i < |ws| ==> ws[i].PutField? || ws[i].RemoveField? }

  lemma {:induction false} FieldWritesOnly(fields: Fields, stage: seq<Op>, n: nat)
    requires n <= COUNT == |stage|
    ensures OnlyFields(FieldWrites(fields, stage, n))
  {
    if n > 0 { FieldWritesOnly(fields, stage, n - 1); }
  }

  lemma {:induction false} AppliedMore(s: Store, a: seq<Write>, b: seq<Write>)
    ensures Applied(s, a + b) == Applied(Applied(s, a), b)
    decreases |b|
  {
    hide Apply;
    if b == [] {
      assert a + b == a;
    } else {
      AppliedMore(s, a, b[..|b| - 1]);
      assert (a + b)[..|a + b| - 1] == a + b[..|b| - 1];
    }
  }

  lemma {:induction false} FieldsKeepFlag(s: Store, ws: seq<Write>)
    requires OnlyFields(ws)
    ensures Applied(s, ws).complete == s.complete && Applied(s, ws).gen == s.gen
    decreases |ws|
  {
    if ws != [] { FieldsKeepFlag(s, ws[..|ws| - 1]); }
  }

  lemma AppliedOne(s: Store, w: Write)
    ensures Applied(s, [w]) == Apply(s, w)
  {
    var ws := [w];
    assert ws[..0] == [] && Applied(s, ws[..0]) == s;
  }

  lemma AppliedNone(s: Store)
    ensures Applied(s, []) == s
  {
  }

  lemma RoundApplied(s: Store, op: Op, f: Field)
    ensures Applied(s, WritesFor(s.fields, op, f)).fields == Changed(s.fields, op, f)
  {
    hide Applied;
    AppliedNone(s);
    match op
    case Set(v) => AppliedOne(s, PutField(f, v));
    case Clear =>
      AppliedOne(s, RemoveField(f));
      if f !in s.fields { assert s.fields - {f} == s.fields; }
    case Keep =>
  }

  lemma {:induction false} LoopApplied(s: Store, stage: seq<Op>, n: nat)
    requires n <= COUNT == |stage|
    ensures Applied(s, FieldWrites(s.fields, stage, n)).fields == Merged(s.fields, stage, n)
  {
    hide Applied, WritesFor, Changed;
    if n > 0 {
      var e: nat := n - 1;
      LoopApplied(s, stage, e);
      var before := Applied(s, FieldWrites(s.fields, stage, e));
      AppliedMore(s, FieldWrites(s.fields, stage, e), WritesFor(before.fields, stage[e], e));
      RoundApplied(before, stage[e], e);
    } else {
      AppliedNone(s);
    }
  }

  /** Each round settles its field and leaves the others. */
  lemma {:induction false} MergedAt(fields: Fields, stage: seq<Op>, n: nat, f: Field)
    requires n <= COUNT == |stage|
    ensures var m := Merged(fields, stage, n);
            if f < n && stage[f].Set? then f in m && m[f] == stage[f].value
            else if f < n && stage[f].Clear? then f !in m
            else (f in m <==> f in fields) && (f in m ==> m[f] == fields[f])
  {
    if n > 0 { MergedAt(fields, stage, n - 1, f); }
  }

  lemma MergedIsWanted(fields: Fields, stage: seq<Op>)
    requires |stage| == COUNT
    ensures Merged(fields, stage, COUNT) == Wanted(fields, stage)
  {
    hide Merged;
    var m, w := Merged(fields, stage, COUNT), Wanted(fields, stage);
    forall f: Field ensures (f in m <==> f in w) && (f in m ==> m[f] == w[f]) { MergedAt(fields, stage, COUNT, f); }
  }

  /** The store after the first k writes. */
  function CutAfter(s: Store, stage: seq<Op>, k: nat): Store
    requires |stage| == COUNT && k <= |Writes(s, stage)|
  {
    Applied(s, Writes(s, stage)[..k])
  }

  lemma MiddleIncomplete(s: Store, stage: seq<Op>, k: nat)
    requires |stage| == COUNT && 1 <= k < |Writes(s, stage)|
    ensures CutAfter(s, stage, k).complete == Some(0)
  {
    hide Applied, FieldWrites;
    var ws, fs := Writes(s, stage), FieldWrites(s.fields, stage, COUNT);
    var first := [PutFlag(0)];
    FieldWritesOnly(s.fields, stage, COUNT);
    AppliedOne(s, PutFlag(0));
    var part := if k <= 1 + |fs| then fs[..k - 1] else fs;
    FieldsKeepFlag(Apply(s, PutFlag(0)), part);
    AppliedMore(s, first, part);
    if k > 1 + |fs| {
      assert ws[..k] == first + part + [PutGen(Wrap(s.gen + 1))];
      AppliedMore(s, first + part, [PutGen(Wrap(s.gen + 1))]);
      AppliedOne(Applied(s, first + part), PutGen(Wrap(s.gen + 1)));
    } else {
      assert ws[..k] == first + part;
    }
  }

  lemma WholeComplete(s: Store, stage: seq<Op>)
    requires |stage| == COUNT
    ensures CutAfter(s, stage, |Writes(s, stage)|) == Store(Wanted(s.fields, stage), Some(1), Wrap(s.gen + 1))
  {
    hide Applied, FieldWrites, Merged, Wanted;
    var fs := FieldWrites(s.fields, stage, COUNT);
    var s1 := Apply(s, PutFlag(0));
    var gen, flag := PutGen(Wrap(s.gen + 1)), PutFlag(1);
    AppliedOne(s, PutFlag(0));
    AppliedMore(s, [PutFlag(0)], fs);
    FieldWritesOnly(s.fields, stage, COUNT);
    FieldsKeepFlag(s1, fs);
    LoopApplied(s1, stage, COUNT);
    MergedIsWanted(s.fields, stage);
    var s2 := Applied(s1, fs);
    AppliedMore(s, [PutFlag(0)] + fs, [gen]);
    AppliedOne(s2, gen);
    AppliedMore(s, [PutFlag(0)] + fs + [gen], [flag]);
    AppliedOne(Apply(s2, gen), flag);
    assert Writes(s, stage)[..|Writes(s, stage)|] == [PutFlag(0)] + fs + [gen] + [flag];
  }

  /** Atomicity: a commit cut after any number of writes leaves the store as it
      was, or boots as nothing, or, after the last write, as the whole set that
      the stage makes of the one held. What an interrupted store holds need not
      be one set; see CredMixture. */
  lemma CommitIsAtomic(s: Store, stage: seq<Op>, k: nat)
    requires |stage| == COUNT && k <= |Writes(s, stage)|
    ensures var r := CutAfter(s, stage, k);
            if k == 0 then r == s
            else if k < |Writes(s, stage)| then StateOf(r) == Incomplete && Boots(r) == None
            else StateOf(r) == Complete && Boots(r) == Some(Wanted(s.fields, stage))
  {
    hide Applied, FieldWrites, Wanted;
    if k == 0 {
      AppliedNone(s);
      assert Writes(s, stage)[..0] == [];
    } else if k < |Writes(s, stage)| {
      MiddleIncomplete(s, stage, k);
    } else {
      WholeComplete(s, stage);
    }
  }

  // ---- every run ---------------------------------------------------------

  /** commit(): what it refuses, it does not start; what it starts may be cut
      or fail after any number of writes. */
  function Commit(s: Store, stage: seq<Op>, allowed: bool, k: nat): Store
    requires |stage| == COUNT
  {
    if !allowed || (forall i :: 0 <= i < COUNT ==> stage[i].Keep?) || CheckSet(Present(s.fields, stage)).Some? then s
    else CutAfter(s, stage, Min(k, |Writes(s, stage)|))
  }

  /** A commit that nothing cuts short: it takes effect exactly if it may write,
      something is staged, and the set it leaves has both of each pair or
      neither; otherwise the store is as it was. */
  lemma CommitOutcome(s: Store, stage: seq<Op>, allowed: bool)
    requires |stage| == COUNT
    ensures var staged := exists i :: 0 <= i < COUNT && !stage[i].Keep?;
            var takes := allowed && staged && PairedFields(Wanted(s.fields, stage));
            Commit(s, stage, allowed, |Writes(s, stage)|)
            == if takes then Store(Wanted(s.fields, stage), Some(1), Wrap(s.gen + 1)) else s
  {
    hide Writes, CutAfter, CheckSet;
    WholeComplete(s, stage);
    PresentIsWanted(s.fields, stage);
  }

  lemma PresentIsWanted(fields: Fields, stage: seq<Op>)
    requires |stage| == COUNT
    ensures Paired(Present(fields, stage)) <==> PairedFields(Wanted(fields, stage))
  {
    var p, w := Present(fields, stage), Wanted(fields, stage);
    forall f: Field ensures p[f] <==> f in w {}
    assert (p[SSID] <==> SSID in w) && (p[PASS] <==> PASS in w) && (p[MQTT_USER] <==> MQTT_USER in w)
           && (p[MQTT_PASS] <==> MQTT_PASS in w);
  }

  datatype Try = Try(stage: seq<Op>, allowed: bool, k: nat)

  predicate TriesOk(tries: seq<Try>) { forall i :: 0 <= i < |tries| ==> |tries[i].stage| == COUNT }

  function After(s: Store, tries: seq<Try>): Store
    requires TriesOk(tries)
  {
    if tries == [] then s
    else var t := tries[|tries| - 1]; Commit(After(s, tries[..|tries| - 1]), t.stage, t.allowed, t.k)
  }

  lemma WantedPaired(fields: Fields, stage: seq<Op>)
    requires |stage| == COUNT && Paired(Present(fields, stage))
    ensures PairedFields(Wanted(fields, stage))
  {
    var p, w := Present(fields, stage), Wanted(fields, stage);
    assert (SSID in w <==> p[SSID]) && (PASS in w <==> p[PASS]);
    assert (MQTT_USER in w <==> p[MQTT_USER]) && (MQTT_PASS in w <==> p[MQTT_PASS]);
  }

  lemma CommitPaired(s: Store, stage: seq<Op>, allowed: bool, k: nat)
    requires |stage| == COUNT && (StateOf(s) == Complete ==> PairedFields(s.fields))
    ensures var r := Commit(s, stage, allowed, k); StateOf(r) == Complete ==> PairedFields(r.fields)
  {
    hide Writes, Applied, Wanted, Present;
    var n := Min(k, |Writes(s, stage)|);
    if CheckSet(Present(s.fields, stage)).None? {
      if n == 0 {
        AppliedNone(s);
        assert Writes(s, stage)[..0] == [];
      } else if n < |Writes(s, stage)| {
        MiddleIncomplete(s, stage, n);
      } else {
        WholeComplete(s, stage);
        WantedPaired(s.fields, stage);
      }
    }
  }

  /** In every run of commits, refused, cut short or whole, from any store that
      is not itself complete with half a pair: a complete store has both of a
      pair or neither. */
  lemma {:induction false} CompleteIsPaired(s: Store, tries: seq<Try>)
    requires TriesOk(tries) && (StateOf(s) == Complete ==> PairedFields(s.fields))
    ensures var r := After(s, tries); StateOf(r) == Complete ==> PairedFields(r.fields)
    decreases |tries|
  {
    hide Commit;
    if tries != [] {
      var t := tries[|tries| - 1];
      CompleteIsPaired(s, tries[..|tries| - 1]);
      CommitPaired(After(s, tries[..|tries| - 1]), t.stage, t.allowed, t.k);
    }
  }

  // ---- in place ----------------------------------------------------------

  /** The NVS side of creds.cpp. Each put may fail; that ends the commit. */
  class Credentials {
    var fields: Fields
    var complete: Option<u8>
    var gen: u32

    function Value(): Store
      reads this
    {
      Store(fields, complete, gen)
    }

    method PutKey(w: Write, accepted: bool) returns (ok: bool)
      modifies this
      ensures ok == accepted && Value() == if ok then Apply(old(Value()), w) else old(Value())
    {
      if accepted {
        match w
        case PutFlag(v) => complete := Some(v);
        case PutField(f, value) => fields := fields[f := value];
        case RemoveField(f) => fields := fields - {f};
        case PutGen(n) => gen := n;
      }
      ok := accepted;
    }

    /** The writing half of commit(): accepts says which puts succeed; written
        is how many did before the first that did not. */
    method CommitStaged(stage: seq<Op>, accepts: nat -> bool) returns (ok: bool, written: nat)
      requires |stage| == COUNT
      modifies this
      ensures written <= |Writes(old(Value()), stage)| && Value() == CutAfter(old(Value()), stage, written)
      ensures ok <==> written == |Writes(old(Value()), stage)|
    {
      hide Applied, FieldWrites, Merged, Apply;
      ghost var s, ws := Value(), Writes(Value(), stage);
      ghost var fs := FieldWrites(s.fields, stage, COUNT);
      written := 0;
      StartOfWrites(s, stage);
      ok := PutKey(PutFlag(0), accepts(0));
      if !ok { return; }
      NextWrite(s, ws, 0);
      written := 1;
      for i := 0 to COUNT
        invariant written == 1 + |FieldWrites(s.fields, stage, i)| <= 1 + |fs|
        invariant Value() == Applied(s, ws[..written]) && fields == Merged(s.fields, stage, i)
      {
        RoundOfWrites(s, stage, i);
        var op := stage[i];
        if op.Set? {
          ok := PutKey(PutField(i, op.value), accepts(written));
          if !ok { return; }
          NextWrite(s, ws, written);
          written := written + 1;
        } else if op.Clear? && i in fields {
          ok := PutKey(RemoveField(i), accepts(written));
          if !ok { return; }
          NextWrite(s, ws, written);
          written := written + 1;
        }
      }
      GenKept(s, stage);
      ok := PutKey(PutGen(Wrap(gen + 1)), accepts(written));
      if !ok { return; }
      NextWrite(s, ws, written);
      written := written + 1;
      ok := PutKey(PutFlag(1), accepts(written));
      if !ok { return; }
      NextWrite(s, ws, written);
      written := written + 1;
    }
  }

  lemma StartOfWrites(s: Store, stage: seq<Op>)
    requires |stage| == COUNT
    ensures var ws := Writes(s, stage);
            && Applied(s, ws[..0]) == s && ws[0] == PutFlag(0) && Merged(s.fields, stage, 0) == s.fields
            && FieldWrites(s.fields, stage, 0) == []
    ensures Apply(s, PutFlag(0)).fields == s.fields
  {
    AppliedNone(s);
    assert Writes(s, stage)[..0] == [];
  }

  lemma NextWrite(s: Store, ws: seq<Write>, k: nat)
    requires k < |ws|
    ensures Applied(s, ws[..k + 1]) == Apply(Applied(s, ws[..k]), ws[k])
  {
    assert ws[..k + 1][..k] == ws[..k] && ws[..k + 1][k] == ws[k];
  }

  lemma {:induction false} FieldWritesPrefix(fields: Fields, stage: seq<Op>, i: nat, n: nat)
    requires i <= n <= COUNT == |stage|
    ensures FieldWrites(fields, stage, i) <= FieldWrites(fields, stage, n)
  {
    if i < n { FieldWritesPrefix(fields, stage, i, n - 1); }
  }

  /** Round i of the loop: its write, if it has one, comes next. */
  lemma RoundOfWrites(s: Store, stage: seq<Op>, i: nat)
    requires i < COUNT == |stage|
    ensures var ws, done := Writes(s, stage), FieldWrites(s.fields, stage, i);
            var mine := WritesFor(Merged(s.fields, stage, i), stage[i], i);
            && FieldWrites(s.fields, stage, i + 1) == done + mine
            && |done + mine| <= |FieldWrites(s.fields, stage, COUNT)|
            && (mine != [] ==> ws[1 + |done|] == mine[0])
            && Merged(s.fields, stage, i + 1) == Changed(Merged(s.fields, stage, i), stage[i], i)
    ensures forall t: Store, v :: Apply(t, PutField(i, v)).fields == t.fields[i := v]
    ensures forall t: Store :: Apply(t, RemoveField(i)).fields == t.fields - {i}
    ensures i !in Merged(s.fields, stage, i) && stage[i].Clear? ==>
            Merged(s.fields, stage, i + 1) == Merged(s.fields, stage, i)
  {
    FieldWritesPrefix(s.fields, stage, i + 1, COUNT);
    var m := Merged(s.fields, stage, i);
    if i !in m { assert m - {i} == m; }
  }

  lemma GenKept(s: Store, stage: seq<Op>)
    requires |stage| == COUNT
    ensures var ws, n := Writes(s, stage), 1 + |FieldWrites(s.fields, stage, COUNT)|;
            && Applied(s, ws[..n]).gen == s.gen && ws[n] == PutGen(Wrap(s.gen + 1)) && ws[n + 1] == PutFlag(1)
            && |ws| == n + 2
  {
    hide Applied, FieldWrites;
    var fs := FieldWrites(s.fields, stage, COUNT);
    assert Writes(s, stage)[..1 + |fs|] == [PutFlag(0)] + fs;
    AppliedMore(s, [PutFlag(0)], fs);
    AppliedOne(s, PutFlag(0));
    FieldWritesOnly(s.fields, stage, COUNT);
    FieldsKeepFlag(Apply(s, PutFlag(0)), fs);
  }
}
