/** The two-pass reader of pollplan.cpp: a cursor moved in place. Every method
    is proved against the reading functions of Json and PlanContract. */
module PlanParser {
  import opened Options
  import opened Decimals
  import opened Json
  import opened PlanContract

  const SATURATION := 0x100_0000_0000   // 2^40

  /** What jnum accumulates: digits stop counting once 2^40 is reached. */
  function SatOf(ds: string): (x: int)
    requires AllDigits(ds)
    ensures 0 <= x < 10 * SATURATION
  {
    if ds == "" then 0
    else
      var x := SatOf(ds[..|ds| - 1]);
      if x < SATURATION then x * 10 + DigitValue(ds[|ds| - 1]) else x
  }

  /** The accumulated value is exact, or it and the true value are both beyond
      every bound the contract compares with. */
  lemma {:induction false} SaturationIsHarmless(ds: string)
    requires AllDigits(ds)
    ensures SatOf(ds) == ValueOf(ds) || (SatOf(ds) >= SATURATION && ValueOf(ds) >= SATURATION)
  {
    if ds != "" { SaturationIsHarmless(ds[..|ds| - 1]); }
  }

  /** Skipping white space a second time changes nothing. */
  lemma SkipTwice(s: string)
    ensures SkipWs(SkipWs(s)) == SkipWs(s)
  {
  }

  /** The part of a reading that the cursor can see: the text left over. */
  function Left<T>(r: Option<(T, string)>): Option<string> {
    match r
    case None => None
    case Some(p) => Some(p.1)
  }

  /** What the cursor sees of a list of elements, without the tree. */
  lemma LeftOfElems(k: Kind, s: string, d: nat)
    ensures Left(ParseElems(k, s, d)) ==
            match Left(ParseLabel(k, s))
            case None => None
            case Some(a) =>
              match Left(ParseValue(a, d))
              case None => None
              case Some(b) => Left(ParseTail(k, SkipWs(b), d))
  {
  }

  lemma LeftOfTail(k: Kind, t: string, d: nat)
    ensures Left(ParseTail(k, t, d)) ==
            if StartsWith(t, ',') then Left(ParseElems(k, t[1..], d))
            else if StartsWith(t, Closer(k)) then Some(t[1..])
            else None
  {
    hide ParseElems;
  }

  lemma LeftOfValue(s: string, d: nat)
    ensures var t := SkipWs(s);
            Left(ParseValue(s, d)) ==
            if t == "" then None
            else if t[0] == '"' then Left(ParseQuoted(t))
            else if t[0] == 't' then ParseWord("true", t)
            else if t[0] == 'f' then ParseWord("false", t)
            else if t[0] == 'n' then ParseWord("null", t)
            else if t[0] == '{' || t[0] == '[' then Left(ParseValue(s, d))
            else Left(ParseNumber(t))
  {
    hide ParseNumber, ParseQuoted, ParseWord;
  }

  lemma LeftOfNode(k: Kind, s: string, d: nat)
    requires StartsWith(SkipWs(s), Opener(k))
    ensures d == 0 ==> ParseValue(s, d) == None
    ensures d > 0 ==> Left(ParseValue(s, d)) == Left(ParseBody(k, SkipWs(s)[1..], d - 1))
  {
    hide ParseBody, ParseScalar, SkipWs;
  }

  lemma LeftOfBody(k: Kind, s: string, d: nat)
    ensures var t := SkipWs(s);
            if StartsWith(t, Closer(k)) then Left(ParseBody(k, s, d)) == Some(t[1..])
            else Left(ParseBody(k, s, d)) == Left(ParseElems(k, t, d))
  {
    hide ParseElems;
    SkipBeforeElems(k, s, d);
  }

  lemma DigitRunFrom(s: string, n: nat)
    requires n <= |s|
    ensures DigitRun(s[n..]) == if n < |s| && IsDigit(s[n]) then 1 + DigitRun(s[n + 1..]) else 0
    ensures AllDigits(s[..n]) && n < |s| && IsDigit(s[n]) ==>
              && AllDigits(s[..n + 1])
              && var x := SatOf(s[..n]);
                 SatOf(s[..n + 1]) == if x < SATURATION then x * 10 + DigitValue(s[n]) else x
    ensures n == 0 ==> SatOf(s[..n]) == 0
  {
    if n < |s| {
      assert s[n..][1..] == s[n + 1..];
      assert s[..n + 1][..n] == s[..n];
    }
  }

  /** The string contents of s end n characters behind where those of its
      rest do. */
  predicate Into(s: string, n: nat)
    requires n <= |s|
  {
    var r := RawRun(s[n..]);
    RawRun(s) == if r.Some? then Some(n + r.value) else None
  }

  lemma IntoStart(s: string)
    ensures Into(s, 0)
  {
    assert s[0..] == s;
  }

  lemma Slices(s: string, n: nat, k: nat)
    requires n + k <= |s|
    ensures s[n..][k..] == s[n + k..] && s[..n] + s[n..][..k] == s[..n + k]
  {
  }

  lemma RawStep(t: string)
    requires t != "" && t[0] != '"'
    ensures var u := UnitLen(t);
            if u.None? then RawRun(t) == None
            else
              var r := RawRun(t[u.value..]);
              RawRun(t) == if r.Some? then Some(u.value + r.value) else None
  {
    hide UnitLen, RawOk;
  }

  lemma IntoUnit(s: string, n: nat)
    requires n < |s| && s[n] != '"' && Into(s, n)
    ensures var u := UnitLen(s[n..]);
            if u.None? then RawRun(s) == None
            else n + u.value <= |s| && Into(s, n + u.value) && s[..n] + s[n..][..u.value] == s[..n + u.value]
  {
    hide UnitLen, RawRun;
    RawStep(s[n..]);
    var u := UnitLen(s[n..]);
    if u.Some? { Slices(s, n, u.value); }
  }

  lemma IntoEnd(s: string, n: nat)
    requires n <= |s| && Into(s, n)
    requires n < |s| ==> s[n] == '"'
    ensures RawRun(s) == if n < |s| then Some(n) else None
  {
  }

  lemma SkipBeforeValue(s: string, d: nat)
    ensures Left(ParseValue(SkipWs(s), d)) == Left(ParseValue(s, d))
  {
    SkipTwice(s);
  }

  lemma SkipBeforeElems(k: Kind, s: string, d: nat)
    ensures Left(ParseElems(k, SkipWs(s), d)) == Left(ParseElems(k, s, d))
  {
    hide ParseElems, ParseValue, ParseQuoted, SkipWs;
    LeftOfElems(k, s, d);
    LeftOfElems(k, SkipWs(s), d);
    SkipTwice(s);
    SkipBeforeValue(s, d);
  }

  /** The quoted string behind white space, seen from behind its opening
      quote. */
  lemma QuotedStep(s: string)
    ensures var t := SkipWs(s);
            if !StartsWith(t, '"') then ParseQuoted(t).None?
            else
              var u := t[1..];
              && ParseQuoted(t).Some? == RawRun(u).Some?
              && (RawRun(u).Some? ==> ParseQuoted(t) == Some((u[..RawRun(u).value], u[RawRun(u).value + 1..])))
  {
    hide RawRun, SkipWs;
  }

  lemma PrefixIs(word: string, t: string)
    requires |word| <= |t|
    ensures word <= t <==> t[..|word|] == word
  {
  }

  /** strncmp at the cursor. */
  lemma WordAt(word: string, text: string, p: nat)
    requires p <= |text|
    ensures var r := ParseWord(word, text[p..]);
            if |text| - p >= |word| && text[p..p + |word|] == word then r == Some(text[p + |word|..]) else r == None
  {
    var t := text[p..];
    if |word| <= |t| {
      PrefixIs(word, t);
      assert t[..|word|] == text[p..p + |word|];
      assert t[|word|..] == text[p + |word|..];
    }
  }

  /** The exponent seen from behind its mark. */
  lemma ExpStep(s: string)
    ensures if !(StartsWith(s, 'e') || StartsWith(s, 'E')) then ParseExp(s) == Some((None, s))
            else
              var t := s[1..];
              var u := if StartsWith(t, '+') || StartsWith(t, '-') then t[1..] else t;
              var n := DigitRun(u);
              if n == 0 then ParseExp(s) == None
              else ParseExp(s).Some? && ParseExp(s).value.0.Some? && ParseExp(s).value.1 == u[n..]
  {
    hide DigitRun;
  }

  /** Does a string fit a C buffer of cap bytes, and hold no escape? */
  predicate Fits(raw: string, cap: nat) {
    '\\' !in raw && (raw == "" || |raw| < cap)
  }

  lemma FitsNothing(cap: nat)
    ensures Fits("", cap)
  {
  }

  class Cursor {
    const text: string
    var p: nat
    var depth: nat

    constructor (text: string)
      ensures this.text == text && p == 0 && depth == 0
    {
      this.text := text;
      p, depth := 0, 0;
    }

    ghost predicate Valid()
      reads this
    {
      p <= |text| && depth <= DEPTH_MAX
    }

    ghost function Rest(): string
      requires Valid()
      reads this
    {
      text[p..]
    }

    method Ws()
      requires Valid()
      modifies this`p
      ensures Valid() && Rest() == SkipWs(old(Rest()))
    {
      while p < |text| && IsWs(text[p])
        invariant Valid() && SkipWs(Rest()) == SkipWs(old(Rest()))
      {
        assert Rest()[1..] == text[p + 1..];
        p := p + 1;
      }
    }

    method Peek(ch: char) returns (b: bool)
      requires Valid()
      modifies this`p
      ensures Valid() && Rest() == SkipWs(old(Rest())) && b == StartsWith(Rest(), ch)
    {
      Ws();
      b := p < |text| && text[p] == ch;
    }

    method Eat(ch: char) returns (b: bool)
      requires Valid()
      modifies this`p
      ensures Valid() && b == StartsWith(SkipWs(old(Rest())), ch)
      ensures Rest() == if b then SkipWs(old(Rest()))[1..] else SkipWs(old(Rest()))
    {
      b := Peek(ch);
      if b { p := p + 1; }
    }

    /** The escape that jstr has reached. */
    method Escape() returns (ok: bool)
      requires Valid() && StartsWith(Rest(), '\\')
      modifies this`p
      ensures Valid()
      ensures var r := UnitLen(old(Rest()));
              ok == r.Some? && (ok ==> p == old(p) + r.value)
    {
      ghost var here := Rest();
      p := p + 1;
      ok := false;
      if p >= |text| { return; }
      var e := text[p];
      assert e == here[1];
      if e == 'u' {
        for k := 0 to 4
          invariant p == old(p) + 1 + k && p < |text| && depth == old(depth)
          invariant forall i :: 2 <= i < 2 + k ==> IsHex(here[i])
        {
          p := p + 1;
          if p >= |text| || !IsHex(text[p]) { return; }
        }
      } else if !TakenEscape(e) {
        return;
      }
      p := p + 1;
      ok := true;
    }

    /** One turn of jstr's loop: a character is copied to the buffer while it
        fits, an escape is checked and makes the string unfit. */
    method Unit(cap: nat, ghost had: string, out: string, fits: bool) returns (ok: bool, out': string, fits': bool)
      requires Valid() && Rest() != "" && Rest()[0] != '"'
      requires fits == Fits(had, cap) && (fits ==> out == had)
      modifies this`p
      ensures Valid()
      ensures var r := UnitLen(old(Rest()));
              && ok == r.Some?
              && (ok ==> var now := had + old(Rest())[..r.value];
                         && p == old(p) + r.value
                         && fits' == Fits(now, cap) && (fits' ==> out' == now))
    {
      out', fits' := out, fits;
      var ch := text[p];
      assert ch == Rest()[0];
      ok := ch >= ' ';
      if !ok { return; }
      if ch == '\\' {
        fits' := false;
        ghost var here := Rest();
        ok := Escape();
        if ok { assert (had + here[..UnitLen(here).value])[|had|] == '\\'; }
      } else {
        if fits && |out| + 1 < cap { out' := out + [ch]; } else { fits' := false; }
        assert Rest()[..1] == [ch];
        p := p + 1;
      }
    }

    /** The loop of jstr, behind the opening quote. */
    method Contents(cap: nat) returns (ok: bool, out: string, fits: bool)
      requires Valid()
      modifies this`p
      ensures Valid()
      ensures var r := RawRun(old(Rest()));
              && ok == r.Some?
              && (ok ==> var raw := old(Rest())[..r.value];
                         p == old(p) + r.value && fits == Fits(raw, cap) && (fits ==> out == raw))
    {
      hide RawRun, UnitLen, Fits, Into;
      out, fits, ok := "", true, true;
      FitsNothing(cap);
      ghost var s := Rest();
      ghost var n := 0;
      IntoStart(s);
      while p < |text| && text[p] != '"'
        invariant Valid() && p == old(p) + n && n <= |s| && Into(s, n)
        invariant fits == Fits(s[..n], cap) && (fits ==> out == s[..n])
        decreases |text| - p
      {
        IntoUnit(s, n);
        assert Rest() == s[n..];
        ghost var u := UnitLen(s[n..]);
        ok, out, fits := Unit(cap, s[..n], out, fits);
        if !ok { return; }
        n := n + u.value;
      }
      IntoEnd(s, n);
      ok := p < |text|;
    }

    /** jstr. `out` stands for the buffer of cap bytes; cap is 0 where the
        firmware passes no buffer. */
    method Jstr(cap: nat) returns (ok: bool, out: string, fits: bool)
      requires Valid()
      modifies this`p
      ensures Valid()
      ensures var r := ParseQuoted(SkipWs(old(Rest())));
              && ok == r.Some?
              && (ok ==> Rest() == r.value.1 && fits == Fits(r.value.0, cap) && (fits ==> out == r.value.0))
    {
      hide ParseQuoted, RawRun, Fits, SkipWs;
      QuotedStep(Rest());
      out, fits := "", true;
      ok := Eat('"');
      if !ok { return; }
      ok, out, fits := Contents(cap);
      if ok { p := p + 1; }
    }

    method Digits() returns (x: int)
      requires Valid()
      modifies this`p
      ensures Valid()
      ensures var n := DigitRun(old(Rest())); x == SatOf(old(Rest())[..n]) && Rest() == old(Rest())[n..]
    {
      hide DigitRun, SatOf;
      x := 0;
      ghost var s := Rest();
      ghost var n := 0;
      DigitRunFrom(s, 0);
      while p < |text| && IsDigit(text[p])
        invariant Valid() && p == old(p) + n && n <= |s|
        invariant DigitRun(s) == n + DigitRun(s[n..])
        invariant AllDigits(s[..n]) && x == SatOf(s[..n])
      {
        DigitRunFrom(s, n);
        if x < SATURATION { x := x * 10 + (text[p] as int - '0' as int); }
        n, p := n + 1, p + 1;
      }
      DigitRunFrom(s, n);
    }

    /** The optional fraction of jnum. */
    method Fraction() returns (ok: bool, seen: bool)
      requires Valid()
      modifies this`p
      ensures Valid()
      ensures var r := ParseFrac(old(Rest()));
              ok == r.Some? && (ok ==> Rest() == r.value.1 && seen == r.value.0.Some?)
    {
      ok, seen := true, p < |text| && text[p] == '.';
      ghost var s := Rest();
      if seen {
        p := p + 1;
        assert Rest() == s[1..];
        if p >= |text| || !IsDigit(text[p]) { ok := false; return; }
        var _ := Digits();
      }
    }

    /** The optional exponent of jnum. */
    method ExponentPart() returns (ok: bool, seen: bool)
      requires Valid()
      modifies this`p
      ensures Valid()
      ensures var r := ParseExp(old(Rest()));
              ok == r.Some? && (ok ==> Rest() == r.value.1 && seen == r.value.0.Some?)
    {
      hide ParseExp, SatOf;
      ExpStep(Rest());
      ok, seen := true, p < |text| && (text[p] == 'e' || text[p] == 'E');
      if seen {
        p := p + 1;
        if p < |text| && (text[p] == '+' || text[p] == '-') { p := p + 1; }
        if p >= |text| || !IsDigit(text[p]) { ok := false; return; }
        var _ := Digits();
      }
    }

    /** The integer part of jnum, its sign already read. */
    method Whole() returns (ok: bool, x: int)
      requires Valid()
      modifies this`p
      ensures Valid()
      ensures var t := old(Rest());
              var n := WholeRun(t);
              && ok == (n > 0)
              && (ok ==> Rest() == t[n..] && AllDigits(t[..n]) && x == SatOf(t[..n]))
    {
      ok, x := p < |text| && IsDigit(text[p]), 0;
      ghost var t := Rest();
      if ok {
        if text[p] == '0' {
          p := p + 1;
          assert t[..1] == "0" && "0"[..0] == "";
          assert SatOf("") == 0 && SatOf("0") == 0;
        } else {
          x := Digits();
        }
      }
    }

    /** jnum: any number; isInt and v say which integer it is written as. */
    method Jnum() returns (ok: bool, isInt: bool, v: int)
      requires Valid()
      modifies this`p
      ensures Valid()
      ensures var r := ParseNumber(SkipWs(old(Rest())));
              && ok == r.Some?
              && (ok ==> var n := r.value.0;
                         && Rest() == r.value.1
                         && AllDigits(n.whole)
                         && isInt == IsInteger(n)
                         && v == if n.neg then -SatOf(n.whole) else SatOf(n.whole))
    {
      hide ParseUnsigned, SatOf, SkipWs;
      isInt, v := true, 0;
      Ws();
      var neg := p < |text| && text[p] == '-';
      if neg { p := p + 1; }
      var x;
      ok, isInt, x := Unsigned(neg);
      if !ok { return; }
      v := if neg then -x else x;
    }

    /** jnum behind the sign. */
    method Unsigned(ghost neg: bool) returns (ok: bool, isInt: bool, x: int)
      requires Valid()
      modifies this`p
      ensures Valid()
      ensures var r := ParseUnsigned(neg, old(Rest()));
              && ok == r.Some?
              && (ok ==> var n := r.value.0;
                         && Rest() == r.value.1
                         && n.neg == neg && AllDigits(n.whole)
                         && isInt == IsInteger(n) && x == SatOf(n.whole))
    {
      hide ParseFrac, ParseExp, SatOf, WholeRun;
      isInt := true;
      var seen;
      ok, x := Whole();
      if !ok { return; }
      ok, seen := Fraction();
      if !ok { return; }
      isInt := !seen;
      ok, seen := ExponentPart();
      if !ok { return; }
      isInt := isInt && !seen;
    }

    method Jlit(lit: string) returns (ok: bool)
      requires Valid()
      modifies this`p
      ensures Valid()
      ensures var r := ParseWord(lit, SkipWs(old(Rest())));
              ok == r.Some? && (ok ==> Rest() == r.value)
    {
      hide ParseWord, SkipWs;
      Ws();
      WordAt(lit, text, p);
      ok := |text| - p >= |lit| && text[p..p + |lit|] == lit;
      if ok { p := p + |lit|; }
    }

    /** jskip: any value, its syntax checked and its nesting limited. */
    method Jskip() returns (ok: bool)
      requires Valid()
      modifies this
      ensures Valid()
      ensures Some(Rest()) == Left(ParseValue(old(Rest()), DEPTH_MAX - old(depth))) || !ok
      ensures ok == ParseValue(old(Rest()), DEPTH_MAX - old(depth)).Some?
      ensures ok ==> depth == old(depth)
      decreases |text| - p, 1
    {
      hide ParseValue, ParseNumber, ParseQuoted, ParseWord, SkipWs;
      ghost var s := Rest();
      Ws();
      LeftOfValue(s, DEPTH_MAX - depth);
      SkipTwice(s);
      if p >= |text| { ok := false; return; }
      match text[p] {
        case '"' =>
          var out, fits;
          ok, out, fits := Jstr(0);
        case 't' => ok := Jlit("true");
        case 'f' => ok := Jlit("false");
        case 'n' => ok := Jlit("null");
        case '{' => ok := JskipNode(Object, s);
        case '[' => ok := JskipNode(Array, s);
        case _ =>
          var isInt, v;
          ok, isInt, v := Jnum();
      }
    }

    /** The two bracket cases of jskip, the cursor on the opening bracket. */
    method JskipNode(k: Kind, ghost s: string) returns (ok: bool)
      requires Valid() && Rest() == SkipWs(s) && StartsWith(Rest(), Opener(k))
      modifies this
      ensures Valid()
      ensures Some(Rest()) == Left(ParseValue(s, DEPTH_MAX - old(depth))) || !ok
      ensures ok == ParseValue(s, DEPTH_MAX - old(depth)).Some?
      ensures ok ==> depth == old(depth)
      decreases |text| - p, 0
    {
      hide ParseValue, ParseBody, ParseElems, SkipWs;
      LeftOfNode(k, s, DEPTH_MAX - depth);
      if depth + 1 > DEPTH_MAX { ok := false; return; }
      depth := depth + 1;
      ghost var d := DEPTH_MAX - depth;
      p := p + 1;
      ghost var body := Rest();
      assert body == SkipWs(s)[1..];
      LeftOfBody(k, body, d);
      ok := Eat(Closer(k));
      if ok { depth := depth - 1; return; }
      var closed := false;
      while !closed
        invariant Valid() && p > old(p) && depth == old(depth) + 1
        invariant Left(ParseBody(k, body, d)) == if closed then Some(Rest()) else Left(ParseElems(k, Rest(), d))
        decreases |text| - p
      {
        ok, closed := JskipElem(k);
        if !ok { return; }
      }
      ok, depth := true, depth - 1;
    }

    /** One turn of jskip's loops: an element, then a comma or the closing
        bracket. */
    method JskipElem(k: Kind) returns (ok: bool, closed: bool)
      requires Valid()
      modifies this
      ensures Valid()
      ensures var r := ParseElems(k, old(Rest()), DEPTH_MAX - old(depth));
              && (!ok ==> r == None)
              && (ok ==> depth == old(depth) && p > old(p))
              && (ok ==> Left(r) == if closed then Some(Rest()) else Left(ParseElems(k, Rest(), DEPTH_MAX - depth)))
      decreases |text| - p, 2
    {
      hide ParseValue, ParseLabel, ParseElems, ParseBody, ParseTail, SkipWs;
      LeftOfElems(k, Rest(), DEPTH_MAX - depth);
      closed := false;
      ok := JskipLabel(k);
      if !ok { return; }
      ok := Jskip();
      if !ok { return; }
      SkipTwice(Rest());
      LeftOfTail(k, SkipWs(Rest()), DEPTH_MAX - depth);
      ok := Eat(',');
      if ok { return; }
      ok := Eat(Closer(k));
      closed := ok;
    }

    method JskipLabel(k: Kind) returns (ok: bool)
      requires Valid()
      modifies this`p
      ensures Valid()
      ensures ok == ParseLabel(k, old(Rest())).Some?
      ensures ok ==> Left(ParseLabel(k, old(Rest()))) == Some(Rest()) && p >= old(p)
    {
      ok := true;
      if k == Object {
        var out, fits;
        ok, out, fits := Jstr(0);
        if ok { ok := Eat(':'); }
      }
    }

    /** jint: an integer, or nothing consumed. */
    method Jint() returns (ok: bool, v: int)
      requires Valid()
      modifies this`p
      ensures Valid()
      ensures var r := ParseNumber(SkipWs(old(Rest())));
              && ok == (r.Some? && IsInteger(r.value.0))
              && (ok ==> var n := r.value.0;
                         && Rest() == r.value.1
                         && AllDigits(n.whole)
                         && v == if n.neg then -SatOf(n.whole) else SatOf(n.whole))
      ensures !ok ==> p == old(p)
    {
      var save := p;
      var isInt;
      ok, isInt, v := Jnum();
      ok := ok && isInt;
      if !ok { p := save; }
    }
  }
}
