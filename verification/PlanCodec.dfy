/** The canonical text of a plan and its NVS blob, and that both come back as
    the plan they were made from. */
module PlanCodec {
  import opened Options
  import opened Decimals
  import opened Json
  import opened PlanContract
  import opened PlanMeaning
  import opened PlanTheorems

  const CANON_MAX := 1536

  // ---- canonical text ----------------------------------------------------

  function EntryText(e: Entry, rest: string): string {
    "{\"mode\":" + (Decimal(e.mode) + (",\"pid\":" + (Decimal(e.pid) +
      (",\"period_ms\":" + (Decimal(e.periodMs) + ("}" + rest))))))
  }

  function EntriesText(p: seq<Entry>, rest: string): string {
    if p == [] then rest
    else if |p| == 1 then EntryText(p[0], rest)
    else EntryText(p[0], "," + EntriesText(p[1..], rest))
  }

  const HEAD := "{\"version\":1,\"entries\":["

  /** The compact JSON form, keys in the order mode, pid, period_ms. */
  function CanonText(p: seq<Entry>): string {
    HEAD + EntriesText(p, "]}")
  }

  /** The text with a comma in front of all but the first entry. */
  function MoreText(p: seq<Entry>, first: bool, rest: string): string {
    if p == [] then rest
    else (if first then "" else ",") + EntryText(p[0], MoreText(p[1..], false, rest))
  }

  lemma {:induction false} MoreIsEntries(p: seq<Entry>, first: bool, rest: string)
    ensures MoreText(p, first, rest) == if p == [] || first then EntriesText(p, rest) else "," + EntriesText(p, rest)
  {
    hide EntryText;
    if |p| > 0 {
      MoreIsEntries(p[1..], false, rest);
      var t := EntryText(p[0], MoreText(p[1..], false, rest));
      assert "" + t == t;
    }
  }

  function Piece(e: Entry, first: bool): string {
    (if first then "" else ",") + EntryText(e, "")
  }

  lemma NextPiece(buf: string, p: seq<Entry>, i: nat, rest: string)
    requires i < |p|
    ensures buf + MoreText(p[i..], i == 0, rest) == buf + Piece(p[i], i == 0) + MoreText(p[i + 1..], false, rest)
  {
    hide EntryText;
    var more := MoreText(p[i + 1..], false, rest);
    assert p[i..][1..] == p[i + 1..];
    EntryTextRest(p[i], more);
    assert MoreText(p[i..], i == 0, rest) == Piece(p[i], i == 0) + more;
  }

  /** pollPlanCanonical: 0 when the buffer is too small. */
  method PollPlanCanonical(p: seq<Entry>, cap: nat) returns (buf: string, n: nat)
    ensures |CanonText(p)| < cap ==> buf == CanonText(p) && n == |CanonText(p)|
    ensures |CanonText(p)| >= cap ==> n == 0
  {
    hide EntryText, EntriesText, MoreText, Piece;
    buf := HEAD;
    MoreIsEntries(p, true, "]}");
    assert p[0..] == p;
    EmptyEntries("]}");
    ghost var all := CanonText(p);
    if |buf| >= cap { return buf, 0; }
    for i := 0 to |p|
      invariant |buf| < cap && buf + MoreText(p[i..], i == 0, "]}") == all
    {
      NextPiece(buf, p, i, "]}");
      buf := buf + Piece(p[i], i == 0);
      if |buf| >= cap { return buf, 0; }
    }
    assert p[|p|..] == [];
    EmptyMore(|p| == 0, "]}");
    buf := buf + "]}";
    n := if |buf| >= cap then 0 else |buf|;
  }

  lemma EmptyEntries(rest: string)
    ensures EntriesText([], rest) == rest
  {
  }

  lemma EmptyMore(first: bool, rest: string)
    ensures MoreText([], first, rest) == rest
  {
  }

  lemma EntryTextRest(e: Entry, rest: string)
    ensures EntryText(e, "") + rest == EntryText(e, rest)
  {
  }

  // ---- its tree ----------------------------------------------------------

  function NumberTree(n: nat): Json { Num("", Number(false, Decimal(n), None, None)) }

  function MemberTree(name: string, v: Json, next: Option<Elems>): Elems {
    Elems(Key("", name, ""), v, "", next)
  }

  function EntryTree(e: Entry): Json {
    Node("", Object, Filled(
      MemberTree("mode", NumberTree(e.mode), Some(
      MemberTree("pid", NumberTree(e.pid), Some(
      MemberTree("period_ms", NumberTree(e.periodMs), None)))))))
  }

  function EntriesTree(p: seq<Entry>): Elems
    requires p != []
  {
    Elems(NoKey, EntryTree(p[0]), "", if |p| == 1 then None else Some(EntriesTree(p[1..])))
  }

  function PlanTree(p: seq<Entry>): Json {
    Node("", Object, Filled(
      MemberTree("version", NumberTree(1), Some(
      MemberTree("entries", Node("", Array, if p == [] then Empty("") else Filled(EntriesTree(p))), None)))))
  }

  lemma MemberEmit(k: Kind, name: string, v: Json, next: Option<Elems>, rest: string)
    ensures EmitElems(k, MemberTree(name, v, next), rest) ==
            "\"" + (name + ("\":" + Emit(v, EmitTail(k, next, rest))))
  {
    hide Emit, EmitTail;
    var tail := EmitTail(k, next, rest);
    assert "" + tail == tail;
    var t := Emit(v, tail);
    assert "\"" + ("" + (":" + t)) == "\":" + t;
  }

  lemma NumberEmit(n: nat, rest: string)
    ensures Emit(NumberTree(n), rest) == Decimal(n) + rest
  {
  }

  lemma EntryEmit(e: Entry, rest: string)
    ensures Emit(EntryTree(e), rest) == EntryText(e, rest)
  {
    hide EmitElems, EmitTail, Decimal;
    var c := MemberTree("period_ms", NumberTree(e.periodMs), None);
    var b := MemberTree("pid", NumberTree(e.pid), Some(c));
    var a := MemberTree("mode", NumberTree(e.mode), Some(b));
    TailEmit(Object, c, rest);
    TailEmit(Object, b, rest);
    MemberEmit(Object, "period_ms", NumberTree(e.periodMs), None, rest);
    NumberEmit(e.periodMs, "}" + rest);
    MemberEmit(Object, "pid", NumberTree(e.pid), Some(c), rest);
    var t3 := Decimal(e.periodMs) + ("}" + rest);
    PieceC(t3);
    NumberEmit(e.pid, "," + EmitElems(Object, c, rest));
    MemberEmit(Object, "mode", NumberTree(e.mode), Some(b), rest);
    var t2 := Decimal(e.pid) + (",\"period_ms\":" + t3);
    PieceB(t2);
    NumberEmit(e.mode, "," + EmitElems(Object, b, rest));
    var t1 := Decimal(e.mode) + (",\"pid\":" + t2);
    PieceA(t1);
    assert EmitElems(Object, a, rest) == "\"" + ("mode" + ("\":" + t1));
    assert Emit(EntryTree(e), rest) == "" + (['{'] + EmitElems(Object, a, rest));
  }

  lemma TailEmit(k: Kind, es: Elems, rest: string)
    ensures EmitTail(k, Some(es), rest) == "," + EmitElems(k, es, rest)
    ensures EmitTail(k, None, rest) == [Closer(k)] + rest
  {
  }

  lemma PieceA(t: string)
    ensures "" + (['{'] + ("\"" + ("mode" + ("\":" + t)))) == "{\"mode\":" + t
  {
  }

  lemma PieceB(t: string)
    ensures "," + ("\"" + ("pid" + ("\":" + t))) == ",\"pid\":" + t
  {
  }

  lemma PieceC(t: string)
    ensures "," + ("\"" + ("period_ms" + ("\":" + t))) == ",\"period_ms\":" + t
  {
  }

  lemma {:induction false} EntriesEmit(p: seq<Entry>, rest: string)
    requires p != []
    ensures EmitElems(Array, EntriesTree(p), rest) == EntriesText(p, "]" + rest)
    decreases |p|
  {
    hide EntryText, Emit;
    var es := EntriesTree(p);
    var tail := EmitTail(Array, es.next, rest);
    EntryEmit(p[0], tail);
    assert "" + tail == tail;
    if |p| > 1 { EntriesEmit(p[1..], rest); }
  }

  lemma PlanEmit(p: seq<Entry>)
    ensures Emit(PlanTree(p), "") == CanonText(p)
  {
    hide EmitElems, EntriesText, Decimal, EntriesTree, EmitLabel;
    var arr := Node("", Array, if p == [] then Empty("") else Filled(EntriesTree(p)));
    var b := MemberTree("entries", arr, None);
    var a := MemberTree("version", NumberTree(1), Some(b));
    var body := EntriesText(p, "]}");
    assert EmitTail(Object, None, "") == "}" && "]" + "}" == "]}";
    ArrayEmit(p, arr, "}");
    MemberEmit(Object, "entries", arr, None, "");
    TailEmit(Object, b, "");
    NumberEmit(1, "," + EmitElems(Object, b, ""));
    MemberEmit(Object, "version", NumberTree(1), Some(b), "");
    OneIsOne();
    HeadText(body);
    assert Emit(PlanTree(p), "") == "" + (['{'] + EmitElems(Object, a, ""));
  }

  lemma OneIsOne()
    ensures Decimal(1) == "1"
  {
  }

  lemma ArrayEmit(p: seq<Entry>, arr: Json, rest: string)
    requires arr == Node("", Array, if p == [] then Empty("") else Filled(EntriesTree(p)))
    ensures Emit(arr, rest) == "[" + EntriesText(p, "]" + rest)
  {
    hide EmitElems, EntriesTree;
    if p != [] { EntriesEmit(p, rest); } else { assert "" + (['['] + ("" + ([']'] + rest))) == "[" + ("]" + rest); }
  }

  lemma HeadText(body: string)
    ensures "" + (['{'] + ("\"" + ("version" + ("\":" + ("1" +
              ("," + ("\"" + ("entries" + ("\":" + ("[" + body)))))))))) == HEAD + body
  {
    var t := "," + ("\"" + ("entries" + ("\":" + ("[" + body))));
    assert t == ",\"entries\":[" + body;
    assert "" + (['{'] + ("\"" + ("version" + ("\":" + ("1" + t))))) == "{\"version\":1" + t;
  }

  // ---- round trip --------------------------------------------------------

  lemma NumberTreeOk(n: nat, d: nat)
    ensures JsonOk(NumberTree(n), d, TakenEscape) && IntOf(NumberTree(n)) == Some(n)
  {
    DecimalValue(n);
  }

  lemma PlainKey(raw: string)
    requires forall i :: 0 <= i < |raw| ==> raw[i] > ' ' && raw[i] != '"' && raw[i] != '\\'
    ensures RawOk(raw, TakenEscape)
    decreases |raw|
  {
    if raw != "" { PlainKey(raw[1..]); }
  }

  lemma MemberOk(name: string, v: Json, next: Option<Elems>, d: nat)
    requires RawOk(name, TakenEscape) && JsonOk(v, d, TakenEscape)
    requires next.Some? ==> ElemsOk(Object, next.value, d, TakenEscape)
    ensures ElemsOk(Object, MemberTree(name, v, next), d, TakenEscape)
    ensures Flat(MemberTree(name, v, next)) == [Field(name, v)] + if next.None? then [] else Flat(next.value)
  {
    hide JsonOk, RawOk;
    JsonOkWs(v, d);
  }

  lemma JsonOkWs(v: Json, d: nat)
    requires JsonOk(v, d, TakenEscape)
    ensures AllWs(v.w)
  {
  }

  lemma ObjectOk(es: Elems, d: nat)
    requires d > 0 && ElemsOk(Object, es, d - 1, TakenEscape)
    ensures JsonOk(Node("", Object, Filled(es)), d, TakenEscape)
  {
  }

  lemma EntryTreeOk(e: Entry, d: nat)
    requires EntryOk(e) && d > 0
    ensures JsonOk(EntryTree(e), d, TakenEscape) && Denotes(EntryTree(e), e)
  {
    hide Decimal, IntOf, JsonOk, ElemsOk, RawOk, Named, Flat;
    NumberTreeOk(e.mode, d - 1);
    NumberTreeOk(e.pid, d - 1);
    NumberTreeOk(e.periodMs, d - 1);
    PlainKey("mode");
    PlainKey("pid");
    PlainKey("period_ms");
    var c := MemberTree("period_ms", NumberTree(e.periodMs), None);
    var b := MemberTree("pid", NumberTree(e.pid), Some(c));
    var a := MemberTree("mode", NumberTree(e.mode), Some(b));
    MemberOk("period_ms", NumberTree(e.periodMs), None, d - 1);
    MemberOk("pid", NumberTree(e.pid), Some(c), d - 1);
    MemberOk("mode", NumberTree(e.mode), Some(b), d - 1);
    ObjectOk(a, d);
    var m, q := Field("mode", NumberTree(e.mode)), Field("pid", NumberTree(e.pid));
    var r := Field("period_ms", NumberTree(e.periodMs));
    assert Flat(a) == [m, q, r];
    ThreeDenote(EntryTree(e), e, m, q, r);
  }

  lemma ThreeDenote(j: Json, e: Entry, m: Field, q: Field, r: Field)
    requires EntryOk(e) && IsNode(j, Object) && Members(j.body) == [m, q, r]
    requires m.name == "mode" && q.name == "pid" && r.name == "period_ms"
    requires IntOf(m.value) == Some(e.mode) && IntOf(q.value) == Some(e.pid) && IntOf(r.value) == Some(e.periodMs)
    ensures Denotes(j, e)
  {
    hide IntOf, Named;
    NamedOfThree(m, q, r);
  }

  lemma NamedCons(f: Field, fs: seq<Field>, name: string)
    ensures Named([f] + fs, name) == if f.name == name then [f.value] + Named(fs, name) else Named(fs, name)
  {
    assert ([f] + fs)[1..] == fs;
  }

  lemma NamedOfThree(a: Field, b: Field, c: Field)
    requires a.name != b.name && a.name != c.name && b.name != c.name
    ensures Named([a, b, c], a.name) == [a.value] && Named([a, b, c], b.name) == [b.value]
            && Named([a, b, c], c.name) == [c.value]
  {
    hide Named;
    assert [a, b, c] == [a] + [b, c];
    NamedCons(a, [b, c], a.name);
    NamedCons(a, [b, c], b.name);
    NamedCons(a, [b, c], c.name);
    NamedOfTwo(b, c);
    NamedOfNone(a.name, b, c);
  }

  lemma NamedOfTwo(a: Field, b: Field)
    requires a.name != b.name
    ensures Named([a, b], a.name) == [a.value] && Named([a, b], b.name) == [b.value]
  {
    assert [a, b] == [a] + [b] && [b] == [b] + [] && Named([], a.name) == [] && Named([], b.name) == [];
    NamedCons(b, [], a.name);
    NamedCons(b, [], b.name);
    NamedCons(a, [b], a.name);
    NamedCons(a, [b], b.name);
  }

  lemma NamedOfNone(name: string, a: Field, b: Field)
    requires name != a.name && name != b.name
    ensures Named([a, b], name) == []
  {
    assert [a, b] == [a] + ([b] + []) && Named([], name) == [];
    NamedCons(b, [], name);
    NamedCons(a, [b] + [], name);
  }

  lemma {:induction false} EntriesTreeOk(p: seq<Entry>, d: nat)
    requires p != [] && d > 0 && forall e :: e in p ==> EntryOk(e)
    ensures ElemsOk(Array, EntriesTree(p), d, TakenEscape)
    ensures Lists(Values(Flat(EntriesTree(p))), p)
    decreases |p|
  {
    hide JsonOk, Denotes, EntryTree;
    EntryTreeOk(p[0], d);
    var es := EntriesTree(p);
    if |p| > 1 {
      EntriesTreeOk(p[1..], d);
      var tail := Values(Flat(EntriesTree(p[1..])));
      assert Values(Flat(es)) == [es.v] + tail;
      forall i | 0 <= i < |p| ensures Denotes(Values(Flat(es))[i], p[i]) {
        if i > 0 { assert Values(Flat(es))[i] == tail[i - 1] && p[i] == p[1..][i - 1]; }
      }
    }
  }

  lemma ArrayOk(p: seq<Entry>, arr: Json)
    requires arr == Node("", Array, if p == [] then Empty("") else Filled(EntriesTree(p)))
    requires forall e :: e in p ==> EntryOk(e)
    ensures JsonOk(arr, 2, TakenEscape) && IsNode(arr, Array) && Lists(Nodes([arr]), p)
  {
    if p != [] { EntriesTreeOk(p, 1); }
    assert [arr][1..] == [] && Nodes([]) == [];
    assert Nodes([arr]) == Values(Members(arr.body));
  }

  lemma PlanTreeOk(p: seq<Entry>)
    requires forall e :: e in p ==> EntryOk(e)
    ensures JsonOk(PlanTree(p), 3, TakenEscape) && IsBodyOf(PlanTree(p), p)
  {
    hide Decimal, IntOf, EntriesTree, Denotes, JsonOk, ElemsOk, RawOk, Named, Flat, Nodes, Lists;
    var arr := Node("", Array, if p == [] then Empty("") else Filled(EntriesTree(p)));
    var b := MemberTree("entries", arr, None);
    var a := MemberTree("version", NumberTree(1), Some(b));
    NumberTreeOk(1, 2);
    PlainKey("version");
    PlainKey("entries");
    ArrayOk(p, arr);
    MemberOk("entries", arr, None, 2);
    MemberOk("version", NumberTree(1), Some(b), 2);
    ObjectOk(a, 3);
    var v, n := Field("version", NumberTree(1)), Field("entries", arr);
    assert Flat(a) == [v, n];
    NamedOfTwo(v, n);
  }

  lemma {:induction false} Deeper(j: Json, c: nat, d: nat)
    requires JsonOk(j, c, TakenEscape) && c <= d
    ensures JsonOk(j, d, TakenEscape)
    decreases j
  {
    if j.Node? && j.body.Filled? { DeeperElems(j.kind, j.body.elems, c - 1, d - 1); }
  }

  lemma {:induction false} DeeperElems(k: Kind, es: Elems, c: nat, d: nat)
    requires ElemsOk(k, es, c, TakenEscape) && c <= d
    ensures ElemsOk(k, es, d, TakenEscape)
    decreases es
  {
    Deeper(es.v, c, d);
    if es.next.Some? { DeeperElems(k, es.next.value, c, d); }
  }

  /** Every valid plan is printed within 1274 bytes. */
  lemma CanonLength(p: seq<Entry>)
    requires PlanOk(p)
    ensures |CanonText(p)| <= 1273 < CANON_MAX
  {
    EntriesLength(p, "]}");
  }

  lemma {:induction false} EntriesLength(p: seq<Entry>, rest: string)
    requires forall e :: e in p ==> EntryOk(e)
    ensures |EntriesText(p, rest)| <= |rest| + if p == [] then 0 else 39 * |p| - 1
    decreases |p|
  {
    if p != [] {
      var e := p[0];
      assert EntryOk(e);
      assert Ten(1) == 10 && Ten(2) == 100 && Ten(3) == 1000 && Ten(4) == 10000 && Ten(5) == 100000;
      DecimalLength(e.mode, 1);
      DecimalLength(e.pid, 3);
      DecimalLength(e.periodMs, 5);
      if |p| > 1 { EntriesLength(p[1..], rest); }
    }
  }

  /** Parsing the canonical text of a valid plan gives the plan back. */
  lemma CanonicalRoundTrip(p: seq<Entry>)
    requires PlanOk(p)
    ensures Answer(CanonText(p)) == Accepted(p)
  {
    hide Contract, PlanTree, CanonText, ParseText, ParseValue, TreeOf, IsBodyOf;
    CanonicalTree(p);
    CanonLength(p);
    AcceptedTextIsTree(CanonText(p), PlanTree(p), "");
    SortedIsDistinct(p);
    ContractComplete(PlanTree(p), p, p);
  }

  lemma CanonicalTree(p: seq<Entry>)
    requires PlanOk(p)
    ensures TreeOf(CanonText(p), PlanTree(p), "", TakenEscape) && IsBodyOf(PlanTree(p), p)
  {
    hide PlanTree, CanonText, JsonOk, IsBodyOf;
    PlanTreeOk(p);
    PlanEmit(p);
    Deeper(PlanTree(p), 3, DEPTH_MAX);
  }

  lemma SortedIsDistinct(p: seq<Entry>)
    requires Sorted(p)
    ensures Distinct(p)
  {
    forall i, j | 0 <= i < j < |p| ensures !SameKey(p[i], p[j]) { assert Before(p[i], p[j]); }
  }

  /** Different plans have different canonical texts, so the hashed text
      identifies the plan. */
  lemma CanonicalInjective(p: seq<Entry>, q: seq<Entry>)
    requires PlanOk(p) && PlanOk(q) && CanonText(p) == CanonText(q)
    ensures p == q
  {
    CanonicalRoundTrip(p);
    CanonicalRoundTrip(q);
  }

  // ---- the vector shared with the hub ------------------------------------

  lemma DecimalStep(n: nat, d: nat)
    requires n > 0 && d < 10
    ensures Decimal(10 * n + d) == Decimal(n) + [Digit(d)]
  {
  }

  lemma Digits()
    ensures Decimal(1) == "1" && Decimal(2) == "2" && Decimal(5) == "5"
    ensures Digit(0) == '0' && Digit(2) == '2' && Digit(3) == '3'
  {
  }

  lemma SmallDecimals()
    ensures Decimal(12) == "12" && Decimal(13) == "13"
    ensures Decimal(200) == "200" && Decimal(500) == "500" && Decimal(1000) == "1000"
  {
    hide Decimal, Digit;
    Digits();
    DecimalStep(1, 2);
    DecimalStep(1, 3);
    DecimalStep(2, 0);
    DecimalStep(20, 0);
    DecimalStep(5, 0);
    DecimalStep(50, 0);
    DecimalStep(1, 0);
    DecimalStep(10, 0);
    DecimalStep(100, 0);
  }

  lemma EntryA()
    ensures EntryText(Entry(1, 5, 1000), "") == "{\"mode\":1,\"pid\":5,\"period_ms\":1000}"
  {
    hide Decimal;
    Digits();
    SmallDecimals();
  }

  lemma EntryB()
    ensures EntryText(Entry(1, 12, 200), "") == "{\"mode\":1,\"pid\":12,\"period_ms\":200}"
  {
    hide Decimal;
    Digits();
    SmallDecimals();
  }

  lemma EntryC()
    ensures EntryText(Entry(1, 13, 500), "") == "{\"mode\":1,\"pid\":13,\"period_ms\":500}"
  {
    hide Decimal;
    Digits();
    SmallDecimals();
  }

  /** The plan and the text that the hub's tests use too. */
  lemma SharedVector()
    ensures CanonText([Entry(1, 5, 1000), Entry(1, 12, 200), Entry(1, 13, 500)])
         == "{\"version\":1,\"entries\":["
            + ("{\"mode\":1,\"pid\":5,\"period_ms\":1000}" + ("," +
               ("{\"mode\":1,\"pid\":12,\"period_ms\":200}" + ("," +
                ("{\"mode\":1,\"pid\":13,\"period_ms\":500}" + "]}")))))
  {
    hide EntryText;
    var a, b, c := Entry(1, 5, 1000), Entry(1, 12, 200), Entry(1, 13, 500);
    assert [a, b, c][1..] == [b, c] && [b, c][1..] == [c];
    var third := EntriesText([c], "]}");
    var second := EntriesText([b, c], "]}");
    EntryA();
    EntryB();
    EntryC();
    EntryTextRest(c, "]}");
    EntryTextRest(b, "," + third);
    EntryTextRest(a, "," + second);
  }
}
