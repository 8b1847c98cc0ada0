/** What the two passes amount to: which texts are well formed, which bodies
    are plans, and which plan a body is. */
module PlanTheorems {
  import opened Options
  import opened Json
  import opened JsonLemmas
  import opened PlanContract

  // ---- pass 1 is a grammar -----------------------------------------------

  /** j is the syntax tree of s, white space w at the end. */
  predicate TreeOf(s: string, j: Json, w: string, esc: char -> bool) {
    JsonOk(j, 16, esc) && AllWs(w) && Emit(j, w) == s
  }

  /** Pass 1 accepts exactly the texts of well-formed trees, and finds the only
      tree there is. */
  lemma AcceptedTextIsTree(s: string, j: Json, w: string)
    ensures TreeOf(s, j, w, TakenEscape) <==> ParseText(s) == Some(j) && w == ParseValue(s, DEPTH_MAX).value.1
  {
    hide ParseValue;
    if TreeOf(s, j, w, TakenEscape) {
      ParseOfEmit(j, w, DEPTH_MAX);
      WsRunOf(w, "");
      assert w + "" == w;
    }
    if ParseText(s) == Some(j) && w == ParseValue(s, DEPTH_MAX).value.1 {
      EmitOfParse(s, DEPTH_MAX);
      SplitWs(w);
      assert w == w[..WsRun(w)];
    }
  }

  /** The characters of sections 2 and 7 of RFC 8259, by their code points. */
  lemma AlphabetIs(c: char)
    ensures IsWs(c) <==> c as int in {0x20, 0x09, 0x0A, 0x0D}
    ensures IsHex(c) <==> 0x30 <= c as int <= 0x39 || 0x41 <= c as int <= 0x46 || 0x61 <= c as int <= 0x66
    ensures IsShortEscape(c) <==> c as int in {0x22, 0x5C, 0x2F, 0x62, 0x66, 0x6E, 0x72, 0x74}
    ensures TakenEscape(c) <==> IsShortEscape(c) || c as int == 0
  {
  }

  // ---- pass 1 and RFC 8259 -----------------------------------------------

  lemma {:induction false} NulInRaw(raw: string)
    requires RawOk(raw, TakenEscape)
    ensures RawOk(raw, IsShortEscape) <==> '\0' !in raw
  {
    if raw != "" {
      var k := if raw[0] != '\\' then 1 else if raw[1] == 'u' then 6 else 2;
      assert raw == raw[..k] + raw[k..];
      NulInRaw(raw[k..]);
    }
  }

  lemma NulInNumber(n: Number, rest: string)
    requires NumberOk(n)
    ensures '\0' in EmitNumber(n, rest) <==> '\0' in rest
  {
  }

  /** What is free of NUL shows no NUL in front of the rest. */
  lemma NulBehind(clean: string, rest: string)
    requires '\0' !in clean
    ensures '\0' in clean + rest <==> '\0' in rest
  {
  }

  lemma NulInQuoted(raw: string, rest: string)
    requires RawOk(raw, TakenEscape)
    ensures '\0' !in EmitQuoted(raw, rest) <==> RawOk(raw, IsShortEscape) && '\0' !in rest
  {
    hide RawOk;
    NulInRaw(raw);
    NulBehind("\"", rest);
    NulBehind("\"", raw + ("\"" + rest));
  }

  lemma NulInLabel(k: Kind, l: Label, rest: string)
    requires LabelOk(k, l, TakenEscape)
    ensures '\0' !in EmitLabel(l, rest) <==> LabelOk(k, l, IsShortEscape) && '\0' !in rest
  {
    hide RawOk, EmitQuoted;
    match l
    case NoKey =>
    case Key(a, raw, b) =>
      var behind := b + (":" + rest);
      NulBehind(":", rest);
      NulBehind(b, ":" + rest);
      NulInQuoted(raw, behind);
      NulBehind(a, EmitQuoted(raw, behind));
  }

  lemma NulInWord(word: string, rest: string)
    requires word == "true" || word == "false" || word == "null"
    ensures '\0' in word + rest <==> '\0' in rest
  {
  }

  lemma {:induction false} NulInTree(j: Json, d: nat, rest: string)
    requires JsonOk(j, d, TakenEscape)
    ensures '\0' !in Emit(j, rest) <==> JsonOk(j, d, IsShortEscape) && '\0' !in rest
    decreases j
  {
    hide RawOk, NumberOk, ElemsOk, EmitQuoted, EmitNumber, EmitElems;
    match j
    case Str(w, raw) =>
      NulInQuoted(raw, rest);
      NulBehind(w, EmitQuoted(raw, rest));
    case Num(w, n) =>
      NulInNumber(n, rest);
      NulBehind(w, EmitNumber(n, rest));
    case Word(w, word) =>
      NulInWord(word, rest);
      NulBehind(w, word + rest);
    case Node(w, k, b) =>
      NulInBody(k, b, d - 1, rest);
      NulBehind([Opener(k)], EmitBody(k, b, rest));
      NulBehind(w, [Opener(k)] + EmitBody(k, b, rest));
  }

  lemma {:induction false} NulInBody(k: Kind, b: Body, d: nat, rest: string)
    requires BodyOk(k, b, d, TakenEscape)
    ensures '\0' !in EmitBody(k, b, rest) <==> BodyOk(k, b, d, IsShortEscape) && '\0' !in rest
    decreases b
  {
    hide ElemsOk, EmitElems;
    match b
    case Empty(w) =>
      NulBehind([Closer(k)], rest);
      NulBehind(w, [Closer(k)] + rest);
    case Filled(es) => NulInElems(k, es, d, rest);
  }

  lemma {:induction false} NulInElems(k: Kind, es: Elems, d: nat, rest: string)
    requires ElemsOk(k, es, d, TakenEscape)
    ensures '\0' !in EmitElems(k, es, rest) <==> ElemsOk(k, es, d, IsShortEscape) && '\0' !in rest
    decreases es
  {
    hide JsonOk, LabelOk, Emit, EmitLabel;
    var tail := EmitTail(k, es.next, rest);
    if es.next.Some? {
      NulInElems(k, es.next.value, d, rest);
      NulBehind(",", EmitElems(k, es.next.value, rest));
    } else {
      NulBehind([Closer(k)], rest);
    }
    NulBehind(es.w, tail);
    NulInTree(es.v, d, es.w + tail);
    NulInLabel(k, es.key, Emit(es.v, es.w + tail));
  }

  /** The grammar of RFC 8259 accepts a text exactly when pass 1 does and the
      text holds no NUL. */
  lemma RfcIffNoNul(s: string, j: Json, w: string)
    ensures TreeOf(s, j, w, IsShortEscape) <==> TreeOf(s, j, w, TakenEscape) && '\0' !in s
  {
    if JsonOk(j, DEPTH_MAX, IsShortEscape) { WeakerEscapes(j, DEPTH_MAX); }
    if TreeOf(s, j, w, TakenEscape) { NulInTree(j, DEPTH_MAX, w); }
  }

  lemma {:induction false} WeakerRaw(raw: string)
    requires RawOk(raw, IsShortEscape)
    ensures RawOk(raw, TakenEscape)
  {
    if raw != "" {
      WeakerRaw(raw[if raw[0] != '\\' then 1 else if raw[1] == 'u' then 6 else 2..]);
    }
  }

  lemma {:induction false} WeakerEscapes(j: Json, d: nat)
    requires JsonOk(j, d, IsShortEscape)
    ensures JsonOk(j, d, TakenEscape)
    decreases j
  {
    match j
    case Str(_, raw) => WeakerRaw(raw);
    case Num(_, _) =>
    case Word(_, _) =>
    case Node(_, k, b) => if b.Filled? { WeakerElems(k, b.elems, d - 1); }
  }

  lemma {:induction false} WeakerElems(k: Kind, es: Elems, d: nat)
    requires ElemsOk(k, es, d, IsShortEscape)
    ensures ElemsOk(k, es, d, TakenEscape)
    decreases es
  {
    WeakerEscapes(es.v, d);
    if es.key.Key? { WeakerRaw(es.key.raw); }
    if es.next.Some? { WeakerElems(k, es.next.value, d); }
  }

  /** Backslash-NUL between quotes passes as an escape. */
  lemma NulEscapeAccepted()
    ensures var s := ['"', '\\', '\0', '"'];
            ParseText(s) == Some(Str("", ['\\', '\0'])) && !RawOk(['\\', '\0'], IsShortEscape)
  {
    hide ParseText, ParseValue;
    var raw := ['\\', '\0'];
    assert raw[2..] == [];
    assert Emit(Str("", raw), "") == ['"', '\\', '\0', '"'];
    AcceptedTextIsTree(Emit(Str("", raw), ""), Str("", raw), "");
  }
}
