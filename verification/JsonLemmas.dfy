/** Reading and emitting JSON are inverse to each other. */
module JsonLemmas {
  import opened Options
  import opened Decimals
  import opened Json

  /** What may stand right after a value. */
  predicate Delimiter(c: char) { IsWs(c) || c == ',' || c == ']' || c == '}' }

  predicate Delimited(rest: string) { rest == "" || Delimiter(rest[0]) }

  lemma DelimiterIsPlain(c: char)
    requires Delimiter(c)
    ensures c != 'e' && c != 'E' && c != '.' && !IsDigit(c)
  {
  }

  // ---- lexical level -----------------------------------------------------

  lemma {:induction false} WsRunOf(w: string, rest: string)
    requires AllWs(w) && (rest == "" || !IsWs(rest[0]))
    ensures WsRun(w + rest) == |w|
    ensures (w + rest)[..|w|] == w && SkipWs(w + rest) == rest
  {
    if w != "" {
      assert (w + rest)[1..] == w[1..] + rest;
      WsRunOf(w[1..], rest);
    } else {
      assert w + rest == rest;
    }
  }

  lemma {:induction false} DigitRunOf(ds: string, rest: string)
    requires AllDigits(ds) && (rest == "" || !IsDigit(rest[0]))
    ensures DigitRun(ds + rest) == |ds|
  {
    if ds != "" {
      assert (ds + rest)[1..] == ds[1..] + rest;
      DigitRunOf(ds[1..], rest);
    } else {
      assert ds + rest == rest;
    }
  }

  lemma {:induction false} RawRunOf(raw: string, rest: string)
    requires RawOk(raw, TakenEscape)
    ensures RawRun(raw + ("\"" + rest)) == Some(|raw|)
  {
    var s := raw + ("\"" + rest);
    if raw != "" {
      var k := if raw[0] != '\\' then 1 else if raw[1] == 'u' then 6 else 2;
      assert s[k..] == raw[k..] + ("\"" + rest);
      RawRunOf(raw[k..], rest);
    }
  }

  /** A text cut at one of its characters. */
  lemma Behind(before: string, c: char, rest: string)
    ensures var s := before + ([c] + rest);
            |before| < |s| && s[|before|] == c && s[..|before|] == before && s[|before| + 1..] == rest
  {
  }

  lemma QuotedOf(raw: string, rest: string)
    requires RawOk(raw, TakenEscape)
    ensures ParseQuoted(EmitQuoted(raw, rest)) == Some((raw, rest))
  {
    hide RawRun, RawOk;
    RawRunOf(raw, rest);
    Behind("", '"', raw + ("\"" + rest));
    Behind(raw, '"', rest);
  }

  lemma FracOf(f: Option<string>, rest: string)
    requires FracOk(f)
    requires rest == "" || !(IsDigit(rest[0]) || rest[0] == '.')
    ensures ParseFrac(EmitFrac(f, rest)) == Some((f, rest))
  {
    if f.Some? {
      assert EmitFrac(f, rest)[1..] == f.value + rest;
      DigitRunOf(f.value, rest);
    }
  }

  lemma SignedDigits(sign: string, digits: string, rest: string)
    requires sign == "" || sign == "+" || sign == "-"
    requires AllDigits(digits) && digits != "" && Delimited(rest)
    ensures var t := sign + (digits + rest);
            SignOf(t) == sign && t[|sign|..] == digits + rest && DigitRun(digits + rest) == |digits|
  {
    DigitRunOf(digits, rest);
    assert (digits + rest)[0] == digits[0];
  }

  lemma ExpOf(e: Option<Exponent>, rest: string)
    requires ExpOk(e)
    requires Delimited(rest)
    ensures ParseExp(EmitExp(e, rest)) == Some((e, rest))
  {
    if e.Some? {
      var Exponent(mark, sign, digits) := e.value;
      var t := sign + (digits + rest);
      assert EmitExp(e, rest) == [mark] + t && ([mark] + t)[1..] == t;
      SignedDigits(sign, digits, rest);
      var u := digits + rest;
      assert u[..|digits|] == digits && u[|digits|..] == rest;
      var s := [mark] + t;
      assert s[0] == mark && StartsWith(s, mark);
      assert ParseExp(s) == Some((Some(Exponent(mark, sign, digits)), rest));
    } else if rest != "" {
      DelimiterIsPlain(rest[0]);
    }
  }

  lemma NumberOf(n: Number, rest: string)
    requires NumberOk(n) && Delimited(rest)
    ensures ParseNumber(EmitNumber(n, rest)) == Some((n, rest))
  {
    var a := EmitExp(n.exp, rest);
    var b := EmitFrac(n.frac, a);
    var t := n.whole + b;
    if n.neg { assert EmitNumber(n, rest)[1..] == t; }
    assert t[..|n.whole|] == n.whole && t[|n.whole|..] == b;
    if n.whole[0] != '0' { DigitRunOf(n.whole, b); }
    FracOf(n.frac, a);
    ExpOf(n.exp, rest);
  }

  // ---- emitting what was read gives the text back ------------------------

  lemma SplitWs(s: string)
    ensures s == s[..WsRun(s)] + SkipWs(s) && AllWs(s[..WsRun(s)])
  {
  }

  lemma CutAt(s: string, n: nat)
    requires n < |s|
    ensures s == s[..n] + ([s[n]] + s[n + 1..])
  {
  }

  lemma QuotedBack(s: string)
    requires ParseQuoted(s).Some?
    ensures var (raw, rest) := ParseQuoted(s).value; EmitQuoted(raw, rest) == s && RawOk(raw, TakenEscape)
  {
    hide RawRun, RawOk;
    CutAt(s, 0);
    CutAt(s[1..], RawRun(s[1..]).value);
  }

  lemma FracBack(s: string)
    requires ParseFrac(s).Some?
    ensures var (f, rest) := ParseFrac(s).value;
            EmitFrac(f, rest) == s && FracOk(f)
  {
    if StartsWith(s, '.') {
      var n := DigitRun(s[1..]);
      assert s == "." + (s[1..][..n] + s[1..][n..]);
    }
  }

  lemma WholeBack(t: string)
    requires WholeRun(t) > 0
    ensures WholeOk(t[..WholeRun(t)])
  {
  }

  lemma UnsignedBack(neg: bool, t: string)
    requires ParseUnsigned(neg, t).Some?
    ensures var (n, rest) := ParseUnsigned(neg, t).value;
            NumberOk(n) && EmitNumber(n, rest) == if neg then "-" + t else t
  {
    var n := WholeRun(t);
    WholeBack(t);
    FracBack(t[n..]);
    var (frac, u) := ParseFrac(t[n..]).value;
    ExpBack(u);
    assert t == t[..n] + t[n..];
  }

  lemma NumberBack(s: string)
    requires ParseNumber(s).Some?
    ensures var (n, rest) := ParseNumber(s).value; EmitNumber(n, rest) == s && NumberOk(n)
  {
    if StartsWith(s, '-') {
      UnsignedBack(true, s[1..]);
      assert s == "-" + s[1..];
    } else {
      UnsignedBack(false, s);
    }
  }

  lemma SignBack(t: string)
    ensures var sign := SignOf(t); sign + t[|sign|..] == t && (sign == "" || sign == "+" || sign == "-")
  {
  }

  lemma DigitsBack(u: string)
    ensures u[..DigitRun(u)] + u[DigitRun(u)..] == u
  {
  }

  /** The three parts ParseExp finds behind the mark. */
  lemma ExpParts(s: string) returns (sign: string, digits: string, rest: string)
    requires ParseExp(s).Some? && (StartsWith(s, 'e') || StartsWith(s, 'E'))
    ensures ParseExp(s) == Some((Some(Exponent(s[0], sign, digits)), rest))
    ensures sign + (digits + rest) == s[1..]
    ensures (sign == "" || sign == "+" || sign == "-") && AllDigits(digits) && digits != ""
  {
    hide SignOf, DigitRun;
    var t := s[1..];
    sign := SignOf(t);
    var u := t[|sign|..];
    digits, rest := u[..DigitRun(u)], u[DigitRun(u)..];
    SignBack(t);
    DigitsBack(u);
  }

  lemma ExpBack(s: string)
    requires ParseExp(s).Some?
    ensures var (e, rest) := ParseExp(s).value; EmitExp(e, rest) == s && ExpOk(e)
  {
    if StartsWith(s, 'e') || StartsWith(s, 'E') {
      var sign, digits, rest := ExpParts(s);
      hide ParseExp;
      assert EmitExp(Some(Exponent(s[0], sign, digits)), rest) == [s[0]] + s[1..];
    }
  }

  lemma WordBack(word: string, s: string)
    requires word <= s
    ensures s == word + s[|word|..]
  {
  }

  lemma ScalarBack(w: string, t: string)
    requires ParseScalar(w, t).Some? && AllWs(w)
    ensures var (v, rest) := ParseScalar(w, t).value; Emit(v, rest) == w + t && JsonOk(v, 0, TakenEscape)
  {
    if t[0] == '"' {
      QuotedBack(t);
    } else if t[0] == 't' {
      WordBack("true", t);
    } else if t[0] == 'f' {
      WordBack("false", t);
    } else if t[0] == 'n' {
      WordBack("null", t);
    } else {
      NumberBack(t);
    }
  }

  lemma NodeBack(w: string, k: Kind, b: Body, rest: string, t: string, d: nat)
    requires AllWs(w) && d > 0 && BodyOk(k, b, d - 1, TakenEscape)
    requires StartsWith(t, Opener(k)) && EmitBody(k, b, rest) == t[1..]
    ensures Emit(Node(w, k, b), rest) == w + t && JsonOk(Node(w, k, b), d, TakenEscape)
  {
    assert t == [Opener(k)] + t[1..];
  }

  /** Soundness: whatever is accepted is the text of a well-formed tree. */
  lemma {:induction false} EmitOfParse(s: string, d: nat)
    requires ParseValue(s, d).Some?
    ensures var (v, rest) := ParseValue(s, d).value; Emit(v, rest) == s && JsonOk(v, d, TakenEscape)
    decreases |s|, 1
  {
    SplitWs(s);
    var t := SkipWs(s);
    if StartsWith(t, '{') || StartsWith(t, '[') {
      var k := if t[0] == '{' then Object else Array;
      EmitOfParseBody(k, t[1..], d - 1);
      var (b, rest) := ParseBody(k, t[1..], d - 1).value;
      NodeBack(s[..WsRun(s)], k, b, rest, t, d);
    } else {
      ScalarBack(s[..WsRun(s)], t);
      ScalarDepth(s[..WsRun(s)], t, d);
    }
  }

  /** Nesting does not matter to a value without brackets. */
  lemma ScalarDepth(w: string, t: string, d: nat)
    requires ParseScalar(w, t).Some? && JsonOk(ParseScalar(w, t).value.0, 0, TakenEscape)
    ensures JsonOk(ParseScalar(w, t).value.0, d, TakenEscape)
  {
  }

  lemma {:induction false} EmitOfParseBody(k: Kind, s: string, d: nat)
    requires ParseBody(k, s, d).Some?
    ensures var (b, rest) := ParseBody(k, s, d).value; EmitBody(k, b, rest) == s && BodyOk(k, b, d, TakenEscape)
    decreases |s|, 3
  {
    hide ParseElems, WsRun;
    SplitWs(s);
    var t := SkipWs(s);
    if StartsWith(t, Closer(k)) {
      assert t == [Closer(k)] + t[1..];
    } else {
      EmitOfParseElems(k, s, d);
    }
  }

  lemma ColonBack(t: string)
    requires StartsWith(SkipWs(t), ':')
    ensures t == t[..WsRun(t)] + (":" + SkipWs(t)[1..])
  {
    hide WsRun;
    SplitWs(t);
    var u := SkipWs(t);
    assert u == ":" + u[1..];
  }

  lemma LabelBack(k: Kind, s: string)
    requires ParseLabel(k, s).Some?
    ensures var (key, rest) := ParseLabel(k, s).value; EmitLabel(key, rest) == s && LabelOk(k, key, TakenEscape)
  {
    if k == Object {
      var (raw, t) := ParseQuoted(SkipWs(s)).value;
      ColonBack(t);
      QuotedBack(SkipWs(s));
      SplitWs(s);
      assert ParseLabel(k, s) == Some((Key(s[..WsRun(s)], raw, t[..WsRun(t)]), SkipWs(t)[1..]));
    }
  }

  lemma {:induction false} EmitOfParseElems(k: Kind, s: string, d: nat)
    requires ParseElems(k, s, d).Some?
    ensures var (es, rest) := ParseElems(k, s, d).value; EmitElems(k, es, rest) == s && ElemsOk(k, es, d, TakenEscape)
    decreases |s|, 2
  {
    LabelBack(k, s);
    var (key, a) := ParseLabel(k, s).value;
    EmitOfParse(a, d);
    var (v, b) := ParseValue(a, d).value;
    SplitWs(b);
    EmitOfParseTail(k, SkipWs(b), d);
  }

  lemma {:induction false} EmitOfParseTail(k: Kind, t: string, d: nat)
    requires ParseTail(k, t, d).Some?
    ensures var (next, rest) := ParseTail(k, t, d).value;
            EmitTail(k, next, rest) == t && (next.Some? ==> ElemsOk(k, next.value, d, TakenEscape))
    decreases |t|, 2
  {
    assert t == [t[0]] + t[1..];
    if t[0] == ',' { EmitOfParseElems(k, t[1..], d); }
  }

  // ---- reading what was emitted gives the tree back ----------------------

  lemma FirstOfNumber(n: Number, rest: string)
    requires NumberOk(n)
    ensures var s := EmitNumber(n, rest); s != "" && (IsDigit(s[0]) || s[0] == '-')
  {
  }

  lemma StrOf(w: string, raw: string, rest: string, d: nat)
    requires AllWs(w) && RawOk(raw, TakenEscape)
    ensures ParseValue(w + EmitQuoted(raw, rest), d) == Some((Str(w, raw), rest))
  {
    WsRunOf(w, EmitQuoted(raw, rest));
    QuotedOf(raw, rest);
  }

  lemma NumOf(w: string, n: Number, rest: string, d: nat)
    requires AllWs(w) && NumberOk(n) && Delimited(rest)
    ensures ParseValue(w + EmitNumber(n, rest), d) == Some((Num(w, n), rest))
  {
    FirstOfNumber(n, rest);
    WsRunOf(w, EmitNumber(n, rest));
    NumberOf(n, rest);
  }

  lemma NodeOf(w: string, k: Kind, b: Body, rest: string, d: nat)
    requires AllWs(w) && d > 0
    requires ParseBody(k, EmitBody(k, b, rest), d - 1) == Some((b, rest))
    ensures ParseValue(w + ([Opener(k)] + EmitBody(k, b, rest)), d) == Some((Node(w, k, b), rest))
  {
    var t := [Opener(k)] + EmitBody(k, b, rest);
    WsRunOf(w, t);
    assert t[1..] == EmitBody(k, b, rest);
    assert StartsWith(t, if k == Object then '{' else '[');
  }

  lemma WordOf(w: string, word: string, rest: string, d: nat)
    requires AllWs(w) && (word == "true" || word == "false" || word == "null")
    ensures ParseValue(w + (word + rest), d) == Some((Word(w, word), rest))
  {
    hide WsRun;
    WsRunOf(w, word + rest);
    ScalarOf(w, word, rest);
  }

  lemma ScalarOf(w: string, word: string, rest: string)
    requires word == "true" || word == "false" || word == "null"
    ensures var t := word + rest;
            t != "" && t[0] != '{' && t[0] != '[' && ParseScalar(w, t) == Some((Word(w, word), rest))
  {
    hide ParseNumber, ParseQuoted;
    var t := word + rest;
    assert t[0] == word[0];
    assert word <= t && t[|word|..] == rest;
  }

  /** Completeness: the text of every well-formed tree is read back as that
      tree. */
  lemma {:induction false} ParseOfEmit(j: Json, rest: string, d: nat)
    requires JsonOk(j, d, TakenEscape) && Delimited(rest)
    ensures ParseValue(Emit(j, rest), d) == Some((j, rest))
    decreases j
  {
    match j
    case Str(w, raw) => StrOf(w, raw, rest, d);
    case Num(w, n) => NumOf(w, n, rest, d);
    case Word(w, word) => WordOf(w, word, rest, d);
    case Node(w, k, b) =>
      ParseOfEmitBody(k, b, rest, d - 1);
      NodeOf(w, k, b, rest, d);
  }

  lemma {:induction false} ParseOfEmitBody(k: Kind, b: Body, rest: string, d: nat)
    requires BodyOk(k, b, d, TakenEscape) && Delimited(rest)
    ensures ParseBody(k, EmitBody(k, b, rest), d) == Some((b, rest))
    decreases b
  {
    match b
    case Empty(w) =>
      var t := [Closer(k)] + rest;
      WsRunOf(w, t);
      assert t[1..] == rest;
    case Filled(es) =>
      ParseOfEmitElems(k, es, rest, d);
      NotClosed(k, es, rest, d);
  }

  /** An element never looks like a closing bracket. */
  lemma NotClosed(k: Kind, es: Elems, rest: string, d: nat)
    requires ElemsOk(k, es, d, TakenEscape)
    ensures !StartsWith(SkipWs(EmitElems(k, es, rest)), Closer(k))
  {
    var after := es.w + EmitTail(k, es.next, rest);
    match es.key
    case NoKey => FirstOfValue(es.v, after, d);
    case Key(a, raw, b) => WsRunOf(a, EmitQuoted(raw, b + (":" + Emit(es.v, after))));
  }

  lemma FirstOfValue(j: Json, rest: string, d: nat)
    requires JsonOk(j, d, TakenEscape)
    ensures var t := SkipWs(Emit(j, rest)); t != "" && t[0] != ']' && t[0] != '}'
  {
    match j
    case Str(w, raw) => WsRunOf(w, EmitQuoted(raw, rest));
    case Num(w, n) => FirstOfNumber(n, rest); WsRunOf(w, EmitNumber(n, rest));
    case Word(w, word) => WsRunOf(w, word + rest);
    case Node(w, k, b) => WsRunOf(w, [Opener(k)] + EmitBody(k, b, rest));
  }

  lemma LabelOf(k: Kind, key: Label, rest: string)
    requires LabelOk(k, key, TakenEscape)
    ensures ParseLabel(k, EmitLabel(key, rest)) == Some((key, rest))
  {
    match key
    case NoKey =>
    case Key(a, raw, b) =>
      var t := b + (":" + rest);
      WsRunOf(a, EmitQuoted(raw, t));
      QuotedOf(raw, t);
      WsRunOf(b, ":" + rest);
      assert (":" + rest)[1..] == rest;
  }

  lemma TailOf(k: Kind, w: string, next: Option<Elems>, rest: string)
    requires AllWs(w)
    ensures var tail := EmitTail(k, next, rest);
            && Delimited(w + tail) && SkipWs(w + tail) == tail && (w + tail)[..WsRun(w + tail)] == w
            && tail[1..] == if next.None? then rest else EmitElems(k, next.value, rest)
  {
    var tail := EmitTail(k, next, rest);
    WsRunOf(w, tail);
    if w != "" { assert (w + tail)[0] == w[0]; } else { assert w + tail == tail; }
  }

  lemma {:induction false} ParseOfEmitElems(k: Kind, es: Elems, rest: string, d: nat)
    requires ElemsOk(k, es, d, TakenEscape) && Delimited(rest)
    ensures ParseElems(k, EmitElems(k, es, rest), d) == Some((es, rest))
    decreases es
  {
    hide ParseValue;
    var Elems(key, v, w, next) := es;
    var tail := EmitTail(k, next, rest);
    TailOf(k, w, next, rest);
    LabelOf(k, key, Emit(v, w + tail));
    ParseOfEmit(v, w + tail, d);
    assert EmitElems(k, es, rest) == EmitLabel(key, Emit(v, w + tail));
    if next.Some? { ParseOfEmitElems(k, next.value, rest, d); }
  }
}
