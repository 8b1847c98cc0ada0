/** JSON text (RFC 8259, sections 2 to 7) as concrete syntax trees, and the
    recursive-descent reading that the poll-plan parser performs.

    `Emit*(x, rest)` is the text of x followed by rest: it is the grammar.
    `Parse*` reads the other way. EmitOfParse and ParseOfEmit say that the two
    are inverses, so a text is accepted exactly when it has a tree. */
module Json {
  import opened Options
  import opened Decimals

  // ---- characters --------------------------------------------------------

  predicate IsWs(c: char) { c == ' ' || c == '\t' || c == '\r' || c == '\n' }

  predicate IsHex(c: char) { IsDigit(c) || 'a' <= c <= 'f' || 'A' <= c <= 'F' }

  /** The eight short escapes. */
  predicate IsShortEscape(c: char) {
    c == '"' || c == '\\' || c == '/' || c == 'b' || c == 'f' || c == 'n' || c == 'r' || c == 't'
  }

  /** strchr also finds the terminator of its search string, so the firmware
      takes backslash-NUL for a short escape. */
  predicate TakenEscape(c: char) { IsShortEscape(c) || c == '\0' }

  predicate AllWs(s: string) { forall i :: 0 <= i < |s| ==> IsWs(s[i]) }

  predicate StartsWith(s: string, c: char) { s != "" && s[0] == c }

  // ---- trees -------------------------------------------------------------

  datatype Kind = Object | Array

  datatype Exponent = Exponent(mark: char, sign: string, digits: string)

  datatype Number = Number(neg: bool, whole: string, frac: Option<string>, exp: Option<Exponent>)

  /** Every node keeps the white space in front of its tokens, so that a tree
      determines its text. */
  datatype Json =
    | Str(w: string, raw: string)
    | Num(w: string, num: Number)
    | Word(w: string, word: string)
    | Node(w: string, kind: Kind, body: Body)

  datatype Body = Empty(wEnd: string) | Filled(elems: Elems)

  datatype Label = NoKey | Key(wKey: string, raw: string, wColon: string)

  /** One or more elements; w stands before the comma or the closing bracket. */
  datatype Elems = Elems(key: Label, v: Json, w: string, next: Option<Elems>)

  function Opener(k: Kind): char { if k == Object then '{' else '[' }

  function Closer(k: Kind): char { if k == Object then '}' else ']' }

  // ---- grammar -----------------------------------------------------------

  /** The characters between two quotes, with `esc` the permitted one-letter
      escapes. */
  predicate RawOk(raw: string, esc: char -> bool) {
    if raw == "" then true
    else if raw[0] == '\\' then
      |raw| >= 2 &&
      if raw[1] == 'u' then
        |raw| >= 6 && IsHex(raw[2]) && IsHex(raw[3]) && IsHex(raw[4]) && IsHex(raw[5]) && RawOk(raw[6..], esc)
      else esc(raw[1]) && RawOk(raw[2..], esc)
    else raw[0] >= ' ' && raw[0] != '"' && RawOk(raw[1..], esc)
  }

  predicate WholeOk(whole: string) {
    AllDigits(whole) && whole != "" && (whole[0] == '0' ==> |whole| == 1)
  }

  predicate FracOk(f: Option<string>) {
    f.Some? ==> AllDigits(f.value) && f.value != ""
  }

  predicate ExpOk(e: Option<Exponent>) {
    e.Some? ==>
      && (e.value.mark == 'e' || e.value.mark == 'E')
      && (e.value.sign == "" || e.value.sign == "+" || e.value.sign == "-")
      && AllDigits(e.value.digits) && e.value.digits != ""
  }

  predicate NumberOk(n: Number) { WholeOk(n.whole) && FracOk(n.frac) && ExpOk(n.exp) }

  /** A well-formed tree whose brackets nest at most d deep. */
  predicate JsonOk(j: Json, d: nat, esc: char -> bool)
    decreases j
  {
    && AllWs(j.w)
    && match j
       case Str(_, raw) => RawOk(raw, esc)
       case Num(_, n) => NumberOk(n)
       case Word(_, word) => word == "true" || word == "false" || word == "null"
       case Node(_, k, body) => d > 0 && BodyOk(k, body, d - 1, esc)
  }

  predicate BodyOk(k: Kind, b: Body, d: nat, esc: char -> bool)
    decreases b
  {
    match b
    case Empty(w) => AllWs(w)
    case Filled(es) => ElemsOk(k, es, d, esc)
  }

  predicate LabelOk(k: Kind, l: Label, esc: char -> bool) {
    match l
    case NoKey => k == Array
    case Key(a, raw, b) => k == Object && AllWs(a) && RawOk(raw, esc) && AllWs(b)
  }

  predicate ElemsOk(k: Kind, es: Elems, d: nat, esc: char -> bool)
    decreases es
  {
    && LabelOk(k, es.key, esc)
    && JsonOk(es.v, d, esc)
    && AllWs(es.w)
    && (es.next.Some? ==> ElemsOk(k, es.next.value, d, esc))
  }

  function EmitExp(e: Option<Exponent>, rest: string): string {
    if e.None? then rest else [e.value.mark] + (e.value.sign + (e.value.digits + rest))
  }

  function EmitFrac(f: Option<string>, rest: string): string {
    if f.None? then rest else "." + (f.value + rest)
  }

  function EmitNumber(n: Number, rest: string): string {
    var body := n.whole + EmitFrac(n.frac, EmitExp(n.exp, rest));
    if n.neg then "-" + body else body
  }

  function EmitQuoted(raw: string, rest: string): string {
    "\"" + (raw + ("\"" + rest))
  }

  function Emit(j: Json, rest: string): string
    decreases j
  {
    j.w + match j
          case Str(_, raw) => EmitQuoted(raw, rest)
          case Num(_, n) => EmitNumber(n, rest)
          case Word(_, word) => word + rest
          case Node(_, k, body) => [Opener(k)] + EmitBody(k, body, rest)
  }

  function EmitBody(k: Kind, b: Body, rest: string): string
    decreases b
  {
    match b
    case Empty(w) => w + ([Closer(k)] + rest)
    case Filled(es) => EmitElems(k, es, rest)
  }

  function EmitLabel(l: Label, rest: string): string {
    match l
    case NoKey => rest
    case Key(a, raw, b) => a + EmitQuoted(raw, b + (":" + rest))
  }

  function EmitElems(k: Kind, es: Elems, rest: string): string
    decreases es, 1
  {
    EmitLabel(es.key, Emit(es.v, es.w + EmitTail(k, es.next, rest)))
  }

  /** A comma and the elements behind it, or the closing bracket. */
  function EmitTail(k: Kind, next: Option<Elems>, rest: string): string
    decreases next, 0
  {
    match next
    case None => [Closer(k)] + rest
    case Some(more) => "," + EmitElems(k, more, rest)
  }

  // ---- reading -----------------------------------------------------------

  function WsRun(s: string): (n: nat)
    ensures n <= |s| && AllWs(s[..n])
    ensures n < |s| ==> !IsWs(s[n])
  {
    if s == "" || !IsWs(s[0]) then 0 else 1 + WsRun(s[1..])
  }

  function SkipWs(s: string): (r: string)
    ensures |r| <= |s|
    ensures r == "" || !IsWs(r[0])
  {
    s[WsRun(s)..]
  }

  function DigitRun(s: string): (n: nat)
    ensures n <= |s| && AllDigits(s[..n])
    ensures n < |s| ==> !IsDigit(s[n])
  {
    if s == "" || !IsDigit(s[0]) then 0 else 1 + DigitRun(s[1..])
  }

  /** Length of the character or escape that starts s. */
  function UnitLen(s: string): (r: Option<nat>)
    requires s != ""
    ensures r.Some? ==> 1 <= r.value <= |s|
  {
    if s[0] < ' ' then None
    else if s[0] != '\\' then Some(1)
    else if |s| < 2 then None
    else if s[1] == 'u' then
      if |s| >= 6 && IsHex(s[2]) && IsHex(s[3]) && IsHex(s[4]) && IsHex(s[5]) then Some(6) else None
    else if TakenEscape(s[1]) then Some(2)
    else None
  }

  /** Length of the string contents that end at the first closing quote. */
  function RawRun(s: string): (r: Option<nat>)
    ensures r.Some? ==> r.value < |s| && s[r.value] == '"' && RawOk(s[..r.value], TakenEscape)
  {
    if s == "" then None
    else if s[0] == '"' then Some(0)
    else
      var k :- UnitLen(s);
      var n :- RawRun(s[k..]);
      assert s[..k + n][k..] == s[k..][..n];
      Some(k + n)
  }

  /** A quoted string with nothing in front of it. */
  function ParseQuoted(s: string): (r: Option<(string, string)>)
    ensures r.Some? ==> |r.value.1| < |s|
  {
    if !StartsWith(s, '"') then None
    else
      var n :- RawRun(s[1..]);
      Some((s[1..][..n], s[1..][n + 1..]))
  }

  function ParseFrac(s: string): (r: Option<(Option<string>, string)>)
    ensures r.Some? ==> |r.value.1| <= |s|
  {
    if !StartsWith(s, '.') then Some((None, s))
    else
      var n := DigitRun(s[1..]);
      if n == 0 then None else Some((Some(s[1..][..n]), s[1..][n..]))
  }

  function SignOf(t: string): (sign: string)
    ensures |sign| <= |t|
  {
    if StartsWith(t, '+') || StartsWith(t, '-') then t[..1] else ""
  }

  function ParseExp(s: string): (r: Option<(Option<Exponent>, string)>)
    ensures r.Some? ==> |r.value.1| <= |s|
  {
    if !(StartsWith(s, 'e') || StartsWith(s, 'E')) then Some((None, s))
    else
      var t := s[1..];
      var sign := SignOf(t);
      var u := t[|sign|..];
      var n := DigitRun(u);
      if n == 0 then None else Some((Some(Exponent(s[0], sign, u[..n])), u[n..]))
  }

  function WholeRun(s: string): (n: nat)
    ensures n <= |s|
  {
    if StartsWith(s, '0') then 1 else DigitRun(s)
  }

  function ParseNumber(s: string): (r: Option<(Number, string)>)
    ensures r.Some? ==> |r.value.1| < |s|
  {
    if StartsWith(s, '-') then ParseUnsigned(true, s[1..]) else ParseUnsigned(false, s)
  }

  function ParseUnsigned(neg: bool, t: string): (r: Option<(Number, string)>)
    ensures r.Some? ==> |r.value.1| < |t|
  {
    var n := WholeRun(t);
    if n == 0 then None
    else
      var (frac, u) :- ParseFrac(t[n..]);
      var (exp, rest) :- ParseExp(u);
      Some((Number(neg, t[..n], frac, exp), rest))
  }

  function ParseWord(word: string, s: string): (r: Option<string>)
    ensures r.Some? ==> |r.value| + |word| == |s|
  {
    if word <= s then Some(s[|word|..]) else None
  }

  /** A string, a word or a number that starts t. */
  function ParseScalar(w: string, t: string): (r: Option<(Json, string)>)
    ensures r.Some? ==> |r.value.1| < |t| && !r.value.0.Node? && r.value.0.w == w
  {
    if t == "" then None
    else if t[0] == '"' then
      var (raw, rest) :- ParseQuoted(t);
      Some((Str(w, raw), rest))
    else if t[0] == 't' then
      var rest :- ParseWord("true", t);
      Some((Word(w, "true"), rest))
    else if t[0] == 'f' then
      var rest :- ParseWord("false", t);
      Some((Word(w, "false"), rest))
    else if t[0] == 'n' then
      var rest :- ParseWord("null", t);
      Some((Word(w, "null"), rest))
    else
      var (n, rest) :- ParseNumber(t);
      Some((Num(w, n), rest))
  }

  /** One value with the white space in front of it, brackets nesting at most
      d deep; the second component is the text left over. */
  function ParseValue(s: string, d: nat): (r: Option<(Json, string)>)
    ensures r.Some? ==> |r.value.1| < |s|
    decreases |s|, 1
  {
    var t := SkipWs(s);
    if StartsWith(t, '{') || StartsWith(t, '[') then
      if d == 0 then None
      else
        var k := if t[0] == '{' then Object else Array;
        var (body, rest) :- ParseBody(k, t[1..], d - 1);
        Some((Node(s[..WsRun(s)], k, body), rest))
    else ParseScalar(s[..WsRun(s)], t)
  }

  function ParseBody(k: Kind, s: string, d: nat): (r: Option<(Body, string)>)
    ensures r.Some? ==> |r.value.1| < |s|
    decreases |s|, 3
  {
    var t := SkipWs(s);
    if StartsWith(t, Closer(k)) then Some((Empty(s[..WsRun(s)]), t[1..]))
    else
      var (es, rest) :- ParseElems(k, s, d);
      Some((Filled(es), rest))
  }

  /** A key and its colon; nothing at all in an array. */
  function ParseLabel(k: Kind, s: string): (r: Option<(Label, string)>)
    ensures r.Some? ==> |r.value.1| <= |s|
  {
    if k == Array then Some((NoKey, s))
    else
      var (raw, t) :- ParseQuoted(SkipWs(s));
      if StartsWith(SkipWs(t), ':') then Some((Key(s[..WsRun(s)], raw, t[..WsRun(t)]), SkipWs(t)[1..])) else None
  }

  function ParseElems(k: Kind, s: string, d: nat): (r: Option<(Elems, string)>)
    ensures r.Some? ==> |r.value.1| < |s|
    decreases |s|, 2
  {
    var (key, a) :- ParseLabel(k, s);
    var (v, b) :- ParseValue(a, d);
    var (next, rest) :- ParseTail(k, SkipWs(b), d);
    Some((Elems(key, v, b[..WsRun(b)], next), rest))
  }

  function ParseTail(k: Kind, t: string, d: nat): (r: Option<(Option<Elems>, string)>)
    ensures r.Some? ==> |r.value.1| < |t|
    decreases |t|, 2
  {
    if StartsWith(t, ',') then
      var (es, rest) :- ParseElems(k, t[1..], d);
      Some((Some(es), rest))
    else if StartsWith(t, Closer(k)) then Some((None, t[1..]))
    else None
  }
}
