/** credPemToDer: exactly one PEM certificate, its base64 body decoded through
    a 32-bit accumulator, against section 4 of RFC 4648. */
module Pem {
  import opened Words
  import opened Arithmetic
  import opened Options

  const BEGIN := "-----BEGIN CERTIFICATE-----"
  const END := "-----END CERTIFICATE-----"
  const CA_MAX := 2048

  type sextet = x: int | 0 <= x < 64

  predicate Blank(c: char) { c == ' ' || c == '\r' || c == '\n' || c == '\t' }

  predicate AllBlank(s: string) { forall i :: 0 <= i < |s| ==> Blank(s[i]) }

  /** b64val. */
  function ValueOf(c: char): Option<sextet> {
    if 'A' <= c <= 'Z' then Some(c as int - 'A' as int)
    else if 'a' <= c <= 'z' then Some(c as int - 'a' as int + 26)
    else if '0' <= c <= '9' then Some(c as int - '0' as int + 52)
    else if c == '+' then Some(62)
    else if c == '/' then Some(63)
    else None
  }

  /** The character of a sextet, section 4 of RFC 4648, table 1. */
  function CharOf(v: sextet): (c: char)
    ensures ValueOf(c) == Some(v) && !Blank(c) && c != '=' && c != '-'
  {
    if v < 26 then 'A' + v as char
    else if v < 52 then 'a' + (v - 26) as char
    else if v < 62 then '0' + (v - 52) as char
    else if v == 62 then '+' else '/'
  }

  predicate At(h: string, i: nat, needle: string) { i + |needle| <= |h| && h[i..i + |needle|] == needle }

  /** findIn, from i on: the first place, or None. */
  function FindFrom(h: string, needle: string, i: nat): (r: Option<nat>)
    ensures r.Some? ==> i <= r.value && At(h, r.value, needle) && forall k :: i <= k < r.value ==> !At(h, k, needle)
    ensures r.None? ==> forall k :: i <= k ==> !At(h, k, needle)
    decreases |h| - i
  {
    if i + |needle| > |h| then None
    else if h[i..i + |needle|] == needle then Some(i)
    else FindFrom(h, needle, i + 1)
  }

  // ---- the accumulator ---------------------------------------------------

  datatype Scan = Scan(acc: u32, bits: nat, pad: nat, chars: nat, out: seq<u8>)

  const START := Scan(0, 0, 0, 0, [])

  function Shifted(acc: u32, v: sextet): u32 { Wrap(acc * 64 + v) }

  /** (uint8_t)(acc >> bits). */
  function TopByte(acc: u32, bits: nat): u8 {
    (if bits == 0 then acc else if bits == 2 then acc / 4 else if bits == 4 then acc / 16 else acc / 64) % 0x100
  }

  /** One character of the body. */
  function Step(s: Scan, c: char, cap: nat): Option<Scan> {
    if Blank(c) then Some(s)
    else if c == '=' then Some(s.(pad := s.pad + 1, chars := s.chars + 1))
    else if s.pad > 0 then None
    else
      var v :- ValueOf(c);
      var t := s.(acc := Shifted(s.acc, v), chars := s.chars + 1);
      if s.bits + 6 < 8 then Some(t.(bits := s.bits + 6))
      else if |s.out| >= cap then None
      else Some(t.(bits := s.bits - 2, out := s.out + [TopByte(t.acc, s.bits - 2)]))
  }

  function Scanned(body: string, cap: nat): Option<Scan> {
    if body == "" then Some(START)
    else
      var s :- Scanned(body[..|body| - 1], cap);
      Step(s, body[|body| - 1], cap)
  }

  /** The body of the one block between the markers, blanks around it. */
  function Block(pem: string): Option<string> {
    var b :- FindFrom(pem, BEGIN, 0);
    var body := b + |BEGIN|;
    var e :- FindFrom(pem, END, body);
    if !AllBlank(pem[..b]) || !AllBlank(pem[e + |END|..]) then None else Some(pem[body..e])
  }

  function Checked(body: string, cap: nat): Option<seq<u8>> {
    var s :- Scanned(body, cap);
    if s.chars == 0 || s.chars % 4 != 0 || s.pad > 2 || |s.out| < 2 || s.out[0] != 0x30 then None else Some(s.out)
  }

  /** credPemToDer. */
  function PemToDer(pem: string, cap: nat): Option<seq<u8>> {
    if |pem| > CA_MAX then None
    else
      var body :- Block(pem);
      Checked(body, cap)
  }

  // ---- base64 ------------------------------------------------------------

  /** The byte that sextet v completes after vs, if it does. */
  function Completed(vs: seq<sextet>, v: sextet): (b: seq<u8>)
    ensures |b| == if |vs| % 4 == 0 then 0 else 1
  {
    var n := |vs|;
    if n % 4 == 0 then []
    else
      var u: nat := vs[n - 1];
      if n % 4 == 1 then [u * 4 + v / 16]
      else if n % 4 == 2 then [u % 16 * 16 + v / 4]
      else [u % 4 * 64 + v]
  }

  /** How many bytes n sextets hold. */
  function ByteCount(n: nat): nat { 6 * n / 8 }

  lemma ByteCountStep(n: nat)
    ensures ByteCount(n + 1) == ByteCount(n) + if n % 4 == 0 then 0 else 1
  {
    var q, r := n / 4, n % 4;
    assert 6 * n == 8 * (3 * q) + 6 * r;
  }

  /** The bytes that sextets hold; what is left over of the last is lost. */
  function Bytes(vs: seq<sextet>): (b: seq<u8>)
    ensures |b| == ByteCount(|vs|)
  {
    if vs == [] then []
    else
      ByteCountStep(|vs| - 1);
      Bytes(vs[..|vs| - 1]) + Completed(vs[..|vs| - 1], vs[|vs| - 1])
  }

  /** The sextets of a text, blanks and padding left out. */
  function Values(body: string): seq<sextet> {
    if body == "" then []
    else
      var rest, v := Values(body[..|body| - 1]), ValueOf(body[|body| - 1]);
      if v.Some? then rest + [v.value] else rest
  }

  /** Characters other than blanks. */
  function Marks(body: string): nat {
    if body == "" then 0 else Marks(body[..|body| - 1]) + if Blank(body[|body| - 1]) then 0 else 1
  }

  function Pads(body: string): nat {
    if body == "" then 0 else Pads(body[..|body| - 1]) + if body[|body| - 1] == '=' then 1 else 0
  }

  /** Base64 digits, then padding, blanks anywhere. */
  predicate IsBody(body: string) {
    body == "" ||
    (IsBody(body[..|body| - 1]) &&
     var c := body[|body| - 1];
     Blank(c) || c == '=' || (ValueOf(c).Some? && Pads(body[..|body| - 1]) == 0))
  }

  /** What the accumulator still holds of the last sextet. */
  predicate Remainder(acc: u32, vs: seq<sextet>) {
    var n := |vs|;
    && (n % 4 == 1 ==> acc % 64 == vs[n - 1])
    && (n % 4 == 2 ==> acc % 16 == vs[n - 1] % 16)
    && (n % 4 == 3 ==> acc % 4 == vs[n - 1] % 4)
  }

  function BitsLeft(n: nat): nat { if n % 4 == 0 then 0 else if n % 4 == 1 then 6 else if n % 4 == 2 then 4 else 2 }

  lemma BitsLeftStep(n: nat)
    ensures if n % 4 == 0 then BitsLeft(n) == 0 && BitsLeft(n + 1) == 6
            else 2 <= BitsLeft(n) <= 6 && BitsLeft(n + 1) == BitsLeft(n) - 2
  {
  }

  lemma Shift16(y: nat, k: nat)
    ensures (y + 16 * k) / 16 == y / 16 + k && (y + 16 * k) % 16 == y % 16
  {
  }

  lemma Shift4(y: nat, k: nat)
    ensures (y + 4 * k) / 4 == y / 4 + k && (y + 4 * k) % 4 == y % 4
  {
  }

  lemma Low8(y: nat, k: nat)
    ensures (y + 0x100 * k) % 0x100 == y % 0x100
  {
  }

  lemma Low6(y: nat, k: nat)
    ensures (y + 64 * k) % 64 == y % 64
  {
  }

  /** What is above bit 12 does not reach a byte taken below it. */
  lemma HighBitsDrop(y: nat, h: nat)
    ensures (y + 0x1000 * h) / 16 % 0x100 == y / 16 % 0x100
    ensures (y + 0x1000 * h) / 4 % 0x100 == y / 4 % 0x100
    ensures (y + 0x1000 * h) % 0x100 == y % 0x100
    ensures (y + 0x1000 * h) % 16 == y % 16 && (y + 0x1000 * h) % 64 == y % 64 && (y + 0x1000 * h) % 4 == y % 4
  {
    Shift16(y, 0x100 * h);
    Low8(y / 16, h);
    Shift4(y, 0x400 * h);
    Low8(y / 4, 4 * h);
    Low8(y, 16 * h);
    Low6(y, 64 * h);
  }

  /** The register after a shift, its low 12 bits written out. */
  lemma ShiftedLow(acc: u32, v: sextet) returns (h: nat)
    ensures Shifted(acc, v) + 0x1000 * h == acc * 64 + v
  {
    h := (acc * 64 + v) / 0x1_0000_0000 * 0x10_0000;
  }

  lemma SecondOfFour(acc: u32, u: sextet, v: sextet)
    requires acc % 64 == u
    ensures TopByte(Shifted(acc, v), 4) == u * 4 + v / 16 && Shifted(acc, v) % 16 == v % 16
  {
    hide Shifted;
    var h := ShiftedLow(acc, v);
    var a: nat := acc / 64;
    HighBitsDrop(Shifted(acc, v), h);
    assert acc == 64 * a + u;
    SecondByte(a, u, v);
  }

  lemma SecondByte(a: nat, u: sextet, v: sextet)
    ensures ((64 * a + u) * 64 + v) / 16 % 0x100 == u * 4 + v / 16 && ((64 * a + u) * 64 + v) % 16 == v % 16
  {
    DivMod((64 * a + u) * 64 + v, 16, 0x100 * a + (4 * u + v / 16), v % 16);
    Low8(4 * u + v / 16, a);
  }

  lemma ThirdOfFour(acc: u32, u: sextet, v: sextet)
    requires acc % 16 == u % 16
    ensures TopByte(Shifted(acc, v), 2) == u % 16 * 16 + v / 4 && Shifted(acc, v) % 4 == v % 4
  {
    hide Shifted;
    var h := ShiftedLow(acc, v);
    var a: nat, m: nat := acc / 16, u % 16;
    HighBitsDrop(Shifted(acc, v), h);
    assert acc == 16 * a + m;
    ThirdByte(a, m, v);
  }

  lemma ThirdByte(a: nat, m: nat, v: sextet)
    requires m < 16
    ensures ((16 * a + m) * 64 + v) / 4 % 0x100 == m * 16 + v / 4 && ((16 * a + m) * 64 + v) % 4 == v % 4
  {
    DivMod((16 * a + m) * 64 + v, 4, 0x100 * a + (16 * m + v / 4), v % 4);
    Low8(16 * m + v / 4, a);
  }

  lemma FourthOfFour(acc: u32, u: sextet, v: sextet)
    requires acc % 4 == u % 4
    ensures TopByte(Shifted(acc, v), 0) == u % 4 * 64 + v
  {
    hide Shifted;
    var h := ShiftedLow(acc, v);
    HighBitsDrop(Shifted(acc, v), h);
    DivMod(acc * 64 + v, 0x100, acc / 4, 64 * (u % 4) + v);
  }

  lemma FirstOfFour(acc: u32, v: sextet)
    ensures Shifted(acc, v) % 64 == v
  {
    hide Shifted;
    var h := ShiftedLow(acc, v);
    HighBitsDrop(Shifted(acc, v), h);
    DivMod(acc * 64 + v, 64, acc, v);
  }

  /** However often the accumulator has overflowed, the byte taken from it is
      that of the last two sextets. */
  lemma OverflowHarmless(acc: u32, vs: seq<sextet>, v: sextet)
    requires Remainder(acc, vs)
    ensures Remainder(Shifted(acc, v), vs + [v])
    ensures |vs| % 4 != 0 ==> [TopByte(Shifted(acc, v), BitsLeft(|vs| + 1))] == Completed(vs, v)
  {
    hide Shifted, TopByte;
    var n := |vs|;
    if n % 4 == 0 {
      FirstOfFour(acc, v);
    } else if n % 4 == 1 {
      SecondOfFour(acc, vs[n - 1], v);
    } else if n % 4 == 2 {
      ThirdOfFour(acc, vs[n - 1], v);
    } else {
      FourthOfFour(acc, vs[n - 1], v);
    }
  }

  lemma BytesMore(vs: seq<sextet>, v: sextet)
    ensures Bytes(vs + [v]) == Bytes(vs) + Completed(vs, v)
  {
    hide Completed;
    assert (vs + [v])[..|vs|] == vs;
  }

  /** The scan accepts the bodies that are base64 with room for the bytes, and
      then holds exactly the bytes of their sextets. */
  lemma {:induction false} ScanIsBase64(body: string, cap: nat)
    ensures var s := Scanned(body, cap);
            && (s.Some? <==> IsBody(body) && ByteCount(|Values(body)|) <= cap)
            && (s.Some? ==>
                  && s.value.out == Bytes(Values(body)) && s.value.pad == Pads(body) && s.value.chars == Marks(body)
                  && s.value.bits == BitsLeft(|Values(body)|) && Remainder(s.value.acc, Values(body)))
    ensures IsBody(body) ==> Marks(body) == |Values(body)| + Pads(body)
    decreases |body|
  {
    hide Step, Bytes, Remainder, ValueOf, Blank, ByteCount;
    if body != "" {
      var rest, c := body[..|body| - 1], body[|body| - 1];
      ScanIsBase64(rest, cap);
      NotBoth(c);
      if Scanned(rest, cap).Some? {
        StepIsBase64(Scanned(rest, cap).value, c, Values(rest), cap);
      }
      ByteCountStep(|Values(rest)|);
    } else {
      EmptyScan();
    }
  }

  /** One digit, from a scan that holds vs. */
  lemma DigitStep(s: Scan, c: char, v: sextet, vs: seq<sextet>, cap: nat)
    requires ValueOf(c) == Some(v) && s.pad == 0
    requires s.out == Bytes(vs) && s.bits == BitsLeft(|vs|) && Remainder(s.acc, vs) && |s.out| <= cap
    ensures var t := Step(s, c, cap);
            if ByteCount(|vs| + 1) > cap then t.None?
            else
              && t.Some? && t.value.out == Bytes(vs + [v]) && t.value.bits == BitsLeft(|vs| + 1)
              && Remainder(t.value.acc, vs + [v]) && t.value.pad == 0 && t.value.chars == s.chars + 1
  {
    hide Bytes, TopByte, Shifted, Remainder, ValueOf, Completed, ByteCount, BitsLeft, Blank;
    ByteCountStep(|vs|);
    BitsLeftStep(|vs|);
    NotBoth(c);
    OverflowHarmless(s.acc, vs, v);
    BytesMore(vs, v);
  }

  /** One character, from a scan that holds vs. */
  lemma StepIsBase64(s: Scan, c: char, vs: seq<sextet>, cap: nat)
    requires s.out == Bytes(vs) && s.bits == BitsLeft(|vs|) && Remainder(s.acc, vs) && |s.out| <= cap
    ensures var v := ValueOf(c);
            var t := Step(s, c, cap);
            if Blank(c) then t == Some(s)
            else if c == '=' then t == Some(s.(pad := s.pad + 1, chars := s.chars + 1))
            else if s.pad > 0 || v.None? || ByteCount(|vs| + 1) > cap then t.None?
            else
              && t.Some? && t.value.out == Bytes(vs + [v.value]) && t.value.bits == BitsLeft(|vs| + 1)
              && Remainder(t.value.acc, vs + [v.value]) && t.value.pad == 0 && t.value.chars == s.chars + 1
  {
    hide Bytes, TopByte, Shifted, Remainder, ValueOf, ByteCount, BitsLeft, Blank;
    var v := ValueOf(c);
    if v.Some? && s.pad == 0 { DigitStep(s, c, v.value, vs, cap); }
  }

  lemma EmptyScan()
    ensures Bytes([]) == [] && Remainder(0, [])
  {
  }

  lemma NotBoth(c: char)
    ensures ValueOf(c).Some? ==> !Blank(c) && c != '=' && c != '-'
    ensures c == '=' ==> !Blank(c)
  {
  }

  // ---- encoding ----------------------------------------------------------

  function Group(x: u8, y: u8, z: u8): (g: string)
    ensures |g| == 4
  {
    [CharOf(x / 4), CharOf(x % 4 * 16 + y / 16), CharOf(y % 16 * 4 + z / 64), CharOf(z % 64)]
  }

  function Groups(b: seq<u8>): string
    requires |b| % 3 == 0
  {
    if b == [] then ""
    else
      var n := |b| - 3;
      Groups(b[..n]) + Group(b[n], b[n + 1], b[n + 2])
  }

  function Tail(b: seq<u8>): string
    requires |b| < 3
  {
    if |b| == 0 then ""
    else if |b| == 1 then [CharOf(b[0] / 4), CharOf(b[0] % 4 * 16), '=', '=']
    else [CharOf(b[0] / 4), CharOf(b[0] % 4 * 16 + b[1] / 16), CharOf(b[1] % 16 * 4), '=']
  }

  /** Section 4 of RFC 4648. */
  function Encode(b: seq<u8>): string {
    var k := |b| - |b| % 3;
    Groups(b[..k]) + Tail(b[k..])
  }

  /** The body without its line breaks and other blanks. */
  function Strip(body: string): string {
    if body == "" then ""
    else
      var c := body[|body| - 1];
      Strip(body[..|body| - 1]) + if Blank(c) then "" else [c]
  }

  /** Blanks change nothing that the decoder looks at. */
  lemma {:induction false} StripSame(body: string)
    ensures Values(Strip(body)) == Values(body) && Pads(Strip(body)) == Pads(body)
    ensures Marks(body) == |Strip(body)| && (IsBody(Strip(body)) <==> IsBody(body))
    decreases |body|
  {
    hide ValueOf, Blank;
    if body != "" {
      var rest, c := body[..|body| - 1], body[|body| - 1];
      StripSame(rest);
      NotBoth(c);
      if Blank(c) {
        assert Strip(body) == Strip(rest);
      } else {
        var t := Strip(body);
        assert t[..|t| - 1] == Strip(rest) && t[|t| - 1] == c;
      }
    }
  }

  /** A text of whole groups that holds b. */
  predicate Holds(t: string, b: seq<u8>, vs: seq<sextet>) {
    IsBody(t) && Pads(t) == 0 && Values(t) == vs && Bytes(vs) == b
  }

  lemma Digit(t: string, b: seq<u8>, vs: seq<sextet>, v: sextet)
    requires Holds(t, b, vs)
    ensures Holds(t + [CharOf(v)], b + Completed(vs, v), vs + [v])
  {
    hide ValueOf, Blank, Completed, Bytes;
    var u := t + [CharOf(v)];
    assert u[..|u| - 1] == t && u[|u| - 1] == CharOf(v);
    BytesMore(vs, v);
  }

  /** How the middle sextets of a group split again. */
  lemma MiddleSplits(x: u8, y: u8)
    ensures (x % 4 * 16 + y / 16) / 16 == x % 4 && (x % 4 * 16 + y / 16) % 16 == y / 16
    ensures (x % 16 * 4 + y / 64) / 4 == x % 16 && (x % 16 * 4 + y / 64) % 4 == y / 64
  {
  }

  /** The byte that v completes behind u. */
  lemma CompletedBehind(vs: seq<sextet>, u: sextet, v: sextet)
    ensures |vs| % 4 == 0 ==> Completed(vs + [u], v) == [u * 4 + v / 16]
    ensures |vs| % 4 == 1 ==> Completed(vs + [u], v) == [u % 16 * 16 + v / 4]
    ensures |vs| % 4 == 2 ==> Completed(vs + [u], v) == [u % 4 * 64 + v]
  {
  }

  lemma GroupStart(vs: seq<sextet>, v: sextet)
    requires |vs| % 4 == 0
    ensures Completed(vs, v) == []
  {
  }

  lemma GroupFirst(vs: seq<sextet>, x: u8, y: u8)
    requires |vs| % 4 == 0
    ensures Completed(vs + [x / 4], x % 4 * 16 + y / 16) == [x]
  {
    hide Completed;
    MiddleSplits(x, y);
    CompletedBehind(vs, x / 4, x % 4 * 16 + y / 16);
  }

  lemma GroupSecond(vs: seq<sextet>, x: u8, y: u8, z: u8)
    requires |vs| % 4 == 1
    ensures Completed(vs + [x % 4 * 16 + y / 16], y % 16 * 4 + z / 64) == [y]
  {
    hide Completed;
    MiddleSplits(x, y);
    MiddleSplits(y, z);
    CompletedBehind(vs, x % 4 * 16 + y / 16, y % 16 * 4 + z / 64);
  }

  lemma GroupThird(vs: seq<sextet>, y: u8, z: u8)
    requires |vs| % 4 == 2
    ensures Completed(vs + [y % 16 * 4 + z / 64], z % 64) == [z]
  {
    hide Completed;
    MiddleSplits(y, z);
    CompletedBehind(vs, y % 16 * 4 + z / 64, z % 64);
  }

  lemma GroupAdds(t: string, b: seq<u8>, vs: seq<sextet>, x: u8, y: u8, z: u8) returns (ws: seq<sextet>)
    requires Holds(t, b, vs) && |vs| % 4 == 0
    ensures Holds(t + Group(x, y, z), b + [x, y, z], ws) && |ws| == |vs| + 4
  {
    hide Holds, CharOf, Completed;
    var v0: sextet, v1: sextet := x / 4, x % 4 * 16 + y / 16;
    var v2: sextet, v3: sextet := y % 16 * 4 + z / 64, z % 64;
    GroupStart(vs, v0);
    GroupFirst(vs, x, y);
    GroupSecond(vs + [v0], x, y, z);
    GroupThird(vs + [v0] + [v1], y, z);
    Digit(t, b, vs, v0);
    var t1, t2 := t + [CharOf(v0)], t + [CharOf(v0)] + [CharOf(v1)];
    Digit(t1, b + [], vs + [v0], v1);
    Digit(t2, b + [] + [x], vs + [v0] + [v1], v2);
    Digit(t2 + [CharOf(v2)], b + [] + [x] + [y], vs + [v0] + [v1] + [v2], v3);
    ws := vs + [v0] + [v1] + [v2] + [v3];
    assert t2 + [CharOf(v2)] + [CharOf(v3)] == t + Group(x, y, z);
    assert b + [] + [x] + [y] + [z] == b + [x, y, z];
  }

  lemma {:induction false} GroupsHold(b: seq<u8>) returns (vs: seq<sextet>)
    requires |b| % 3 == 0
    ensures Holds(Groups(b), b, vs) && |vs| % 4 == 0 && |Groups(b)| == 4 * (|b| / 3)
    decreases |b|
  {
    hide Group, Holds;
    if b == [] {
      vs := [];
      EmptyBody();
    } else {
      var n := |b| - 3;
      vs := GroupsHold(b[..n]);
      vs := GroupAdds(Groups(b[..n]), b[..n], vs, b[n], b[n + 1], b[n + 2]);
      assert b == b[..n] + [b[n], b[n + 1], b[n + 2]];
    }
  }

  lemma EmptyBody()
    ensures Holds("", [], [])
  {
  }

  /** A text that is base64 for b and ends in p pads. */
  predicate Spells(t: string, b: seq<u8>, p: nat) { IsBody(t) && Pads(t) == p && Bytes(Values(t)) == b }

  lemma PadAdds(t: string, b: seq<u8>, p: nat)
    requires Spells(t, b, p)
    ensures Spells(t + ['='], b, p + 1)
  {
    var u := t + ['='];
    assert u[..|u| - 1] == t && u[|u| - 1] == '=';
    NotBoth('=');
  }

  lemma TailBytes(vs: seq<sextet>, x: u8, y: u8)
    requires |vs| % 4 == 0
    ensures Completed(vs, x / 4) == []
    ensures Completed(vs + [x / 4], x % 4 * 16) == [x] == Completed(vs + [x / 4], x % 4 * 16 + y / 16)
    ensures Completed(vs + [x / 4] + [x % 4 * 16 + y / 16], y % 16 * 4) == [y]
  {
  }

  lemma OneLeft(t: string, b: seq<u8>, vs: seq<sextet>, x: u8)
    requires Holds(t, b, vs) && |vs| % 4 == 0
    ensures Spells(t + Tail([x]), b + [x], 2)
  {
    hide CharOf, Completed, IsBody, Values, Pads, Bytes;
    TailBytes(vs, x, 0);
    Digit(t, b, vs, x / 4);
    Digit(t + [CharOf(x / 4)], b + [], vs + [x / 4], x % 4 * 16);
    var u := t + [CharOf(x / 4)] + [CharOf(x % 4 * 16)];
    PadAdds(u, b + [] + [x], 0);
    PadAdds(u + ['='], b + [] + [x], 1);
    assert u + ['='] + ['='] == t + Tail([x]);
    assert b + [] + [x] == b + [x];
  }

  lemma TwoLeft(t: string, b: seq<u8>, vs: seq<sextet>, x: u8, y: u8)
    requires Holds(t, b, vs) && |vs| % 4 == 0
    ensures Spells(t + Tail([x, y]), b + [x, y], 1)
  {
    hide CharOf, Completed, IsBody, Values, Pads, Bytes;
    TailBytes(vs, x, y);
    var v1: sextet := x % 4 * 16 + y / 16;
    Digit(t, b, vs, x / 4);
    Digit(t + [CharOf(x / 4)], b + [], vs + [x / 4], v1);
    Digit(t + [CharOf(x / 4)] + [CharOf(v1)], b + [] + [x], vs + [x / 4] + [v1], y % 16 * 4);
    var u := t + [CharOf(x / 4)] + [CharOf(v1)] + [CharOf(y % 16 * 4)];
    PadAdds(u, b + [] + [x] + [y], 0);
    assert u + ['='] == t + Tail([x, y]);
    assert b + [] + [x] + [y] == b + [x, y];
  }

  function PadCount(n: nat): (p: nat)
    ensures p <= 2
  {
    if n % 3 == 0 then 0 else if n % 3 == 1 then 2 else 1
  }

  function GroupCount(n: nat): (g: nat)
    ensures g > 0 <==> n > 0
  {
    if n % 3 == 0 then n / 3 else n / 3 + 1
  }

  /** Encoding and the reading of sextets are inverse. */
  lemma EncodeSpells(b: seq<u8>)
    ensures Spells(Encode(b), b, PadCount(|b|)) && |Encode(b)| == 4 * GroupCount(|b|)
  {
    hide Holds, Spells, Groups;
    var k := |b| - |b| % 3;
    var vs := GroupsHold(b[..k]);
    var rest := b[k..];
    assert b == b[..k] + rest;
    if |rest| == 0 {
      HoldsSpells(Groups(b[..k]), b[..k], vs);
      assert Groups(b[..k]) + "" == Groups(b[..k]) && b[..k] == b;
    } else if |rest| == 1 {
      assert rest == [rest[0]];
      OneLeft(Groups(b[..k]), b[..k], vs, rest[0]);
    } else {
      assert rest == [rest[0], rest[1]];
      TwoLeft(Groups(b[..k]), b[..k], vs, rest[0], rest[1]);
    }
  }

  lemma HoldsSpells(t: string, b: seq<u8>, vs: seq<sextet>)
    requires Holds(t, b, vs)
    ensures Spells(t, b, 0)
  {
  }

  // ---- the certificate ---------------------------------------------------

  lemma FindIs(h: string, needle: string, i: nat, r: nat)
    requires i <= r && At(h, r, needle) && forall k :: i <= k < r ==> !At(h, k, needle)
    ensures FindFrom(h, needle, i) == Some(r)
  {
    hide FindFrom;
    var f := FindFrom(h, needle, i);
    assert f.Some? && !(f.value < r) && !(r < f.value);
  }

  lemma {:induction false} NoDash(body: string)
    requires IsBody(body)
    ensures forall i :: 0 <= i < |body| ==> body[i] != '-'
    decreases |body|
  {
    if body != "" {
      var c := body[|body| - 1];
      NoDash(body[..|body| - 1]);
      assert c != '-';
      assert forall i :: 0 <= i < |body| - 1 ==> body[i] == body[..|body| - 1][i];
    }
  }

  lemma AtStarts(h: string, k: nat, needle: string)
    requires needle != ""
    ensures At(h, k, needle) ==> k < |h| && h[k] == needle[0]
  {
    if At(h, k, needle) { assert h[k..k + |needle|][0] == h[k]; }
  }

  /** No place before r starts with a dash, and the marker does. */
  lemma MarkerFirst(h: string, needle: string, i: nat, r: nat)
    requires needle != "" && needle[0] == '-' && i <= r && At(h, r, needle)
    requires forall k :: i <= k < r ==> h[k] != '-'
    ensures FindFrom(h, needle, i) == Some(r)
  {
    forall k | i <= k < r ensures !At(h, k, needle) { AtStarts(h, k, needle); }
    FindIs(h, needle, i, r);
  }

  /** The text of a certificate: a body between the markers, blanks around. */
  function PemText(pre: string, body: string, post: string): string { pre + BEGIN + body + END + post }

  lemma FirstMarker(pre: string, open: string, rest: string)
    requires AllBlank(pre) && open != "" && open[0] == '-'
    ensures FindFrom(pre + open + rest, open, 0) == Some(|pre|)
  {
    hide FindFrom;
    var h := pre + open + rest;
    assert h[|pre|..|pre| + |open|] == open;
    forall k | 0 <= k < |pre| ensures h[k] != '-' { assert h[k] == pre[k] && Blank(pre[k]); }
    MarkerFirst(h, open, 0, |pre|);
  }

  lemma SecondMarker(front: string, body: string, close: string, post: string)
    requires (forall i :: 0 <= i < |body| ==> body[i] != '-') && close != "" && close[0] == '-'
    ensures FindFrom(front + body + close + post, close, |front|) == Some(|front| + |body|)
  {
    hide FindFrom;
    var h, r := front + body + close + post, |front| + |body|;
    assert h[r..r + |close|] == close;
    forall k | |front| <= k < r ensures h[k] != '-' { assert h[k] == body[k - |front|]; }
    MarkerFirst(h, close, |front|, r);
  }

  lemma Markers()
    ensures |BEGIN| == 27 && |END| == 25 && BEGIN[0] == '-' && END[0] == '-'
  {
  }

  /** What the decoder makes of a body. */
  function Decoded(body: string, cap: nat): Option<seq<u8>> {
    var der := Bytes(Values(body));
    if IsBody(body) && ByteCount(|Values(body)|) <= cap && Marks(body) > 0 && Marks(body) % 4 == 0 && Pads(body) <= 2
       && |der| >= 2 && der[0] == 0x30 then Some(der) else None
  }

  lemma BlockIs(pre: string, body: string, post: string)
    requires AllBlank(pre) && AllBlank(post) && IsBody(body)
    ensures Block(PemText(pre, body, post)) == Some(body)
  {
    hide FindFrom, IsBody, AllBlank;
    NoDash(body);
    BlockOf(pre, body, post);
  }

  /** A body is accepted exactly if it is base64 with room for its bytes, in
      whole groups with at most two pads, an ASN.1 SEQUENCE inside. */
  lemma AcceptedIff(body: string, cap: nat)
    ensures Checked(body, cap) == Decoded(body, cap)
  {
    hide Scanned, IsBody, Values, Marks, Pads, ByteCount;
    ScanIsBase64(body, cap);
  }

  lemma {:induction false} ScannedPlain(body: string, cap: nat)
    requires Scanned(body, cap).Some?
    ensures forall i :: 0 <= i < |body| ==> body[i] != '-'
  {
    hide Shifted, TopByte;
    if body != "" {
      ScannedPlain(body[..|body| - 1], cap);
      assert body == body[..|body| - 1] + [body[|body| - 1]];
    }
  }

  /** The block of a text: blanks, the first marker, a body without dashes, the
      second marker, blanks. */
  lemma BlockOf(pre: string, body: string, post: string)
    requires AllBlank(pre) && AllBlank(post) && forall i :: 0 <= i < |body| ==> body[i] != '-'
    ensures Block(PemText(pre, body, post)) == Some(body)
  {
    hide FindFrom, AllBlank;
    Markers();
    var pem := PemText(pre, body, post);
    var front := pre + BEGIN;
    assert pem == pre + BEGIN + (body + END + post);
    FirstMarker(pre, BEGIN, body + END + post);
    assert pem == front + body + END + post;
    SecondMarker(front, body, END, post);
    assert pem[..|pre|] == pre;
    var e := |front| + |body|;
    assert pem[|front|..e] == body;
    assert pem[e + |END|..] == post;
  }

  lemma BlockParts(pem: string, body: string) returns (pre: string, post: string)
    requires Block(pem) == Some(body)
    ensures pem == PemText(pre, body, post) && AllBlank(pre) && AllBlank(post)
  {
    hide AllBlank, FindFrom;
    var b := FindFrom(pem, BEGIN, 0).value;
    var start := b + |BEGIN|;
    var e := FindFrom(pem, END, start).value;
    pre, post := pem[..b], pem[e + |END|..];
    FiveParts(pem, b, start, e, e + |END|);
  }

  lemma FiveParts(s: string, a: nat, b: nat, c: nat, d: nat)
    requires a <= b <= c <= d <= |s|
    ensures s == s[..a] + s[a..b] + s[b..c] + s[c..d] + s[d..]
  {
    assert s[..b] == s[..a] + s[a..b];
    assert s[..c] == s[..b] + s[b..c];
    assert s[..d] == s[..c] + s[c..d];
    assert s == s[..d] + s[d..];
  }

  /** Which texts are accepted, and as what: at most CA_MAX characters, nothing
      but blanks around the one certificate, and a body that decodes. */
  lemma PemAcceptedIff(pem: string, cap: nat, der: seq<u8>)
    ensures PemToDer(pem, cap) == Some(der) <==>
            |pem| <= CA_MAX && exists pre, body, post ::
              pem == PemText(pre, body, post) && AllBlank(pre) && AllBlank(post) && Decoded(body, cap) == Some(der)
  {
    hide Block, PemText, AllBlank, Decoded, Checked;
    if PemToDer(pem, cap) == Some(der) {
      var body := Block(pem).value;
      var pre, post := BlockParts(pem, body);
      AcceptedIff(body, cap);
    }
    forall pre, body, post
      | |pem| <= CA_MAX && pem == PemText(pre, body, post) && AllBlank(pre) && AllBlank(post)
        && Decoded(body, cap) == Some(der)
      ensures PemToDer(pem, cap) == Some(der)
    {
      AcceptedIff(body, cap);
      CheckedPlain(body, cap);
      BlockOf(pre, body, post);
    }
  }

  lemma CheckedPlain(body: string, cap: nat)
    requires Checked(body, cap).Some?
    ensures forall i :: 0 <= i < |body| ==> body[i] != '-'
  {
    ScannedPlain(body, cap);
  }

  /** On any accepted text the length is three quarters of the characters,
      less the pads. */
  lemma AcceptedLength(body: string, cap: nat)
    requires Decoded(body, cap).Some?
    ensures |Decoded(body, cap).value| == 3 * Marks(body) / 4 - Pads(body)
  {
    hide IsBody, Values, Marks, Pads, Bytes;
    ScanIsBase64(body, cap);
    var n, p, q := |Values(body)|, Pads(body), Marks(body) / 4;
    assert n == 4 * q - p;
    LengthOf(q, n, p);
  }

  lemma LengthOf(q: nat, n: nat, p: nat)
    requires n + p == 4 * q && p <= 2
    ensures ByteCount(n) == 3 * q - p == 3 * (4 * q) / 4 - p
  {
  }

  /** The PEM inverse: any DER of at least two bytes that starts a SEQUENCE,
      encoded and broken into lines in any way, is decoded unchanged. */
  lemma PemRoundTrip(pre: string, body: string, post: string, der: seq<u8>, cap: nat)
    requires AllBlank(pre) && AllBlank(post) && Strip(body) == Encode(der)
    requires 2 <= |der| <= cap && der[0] == 0x30 && |PemText(pre, body, post)| <= CA_MAX
    ensures PemToDer(PemText(pre, body, post), cap) == Some(der)
  {
    hide AllBlank, Block, IsBody, Values, Marks, Pads, Strip, Encode, ByteCount, Bytes, PemText, Checked, PadCount,
        GroupCount;
    EncodeSpells(der);
    StripSame(body);
    assert Spells(Strip(body), der, PadCount(|der|));
    BlockIs(pre, body, post);
    AcceptedIff(body, cap);
  }

  // ---- in place ----------------------------------------------------------

  /** findIn, on what follows i. */
  method FindIn(h: string, needle: string, i: nat) returns (r: Option<nat>)
    ensures r == FindFrom(h, needle, i)
  {
    var k := i;
    while k + |needle| <= |h|
      invariant i <= k && FindFrom(h, needle, i) == FindFrom(h, needle, k)
      decreases |h| - k
    {
      if h[k..k + |needle|] == needle { return Some(k); }
      k := k + 1;
    }
    r := None;
  }

  method OnlyBlanks(s: string) returns (ok: bool)
    ensures ok <==> AllBlank(s)
  {
    for i := 0 to |s|
      invariant AllBlank(s[..i])
    {
      if !Blank(s[i]) { return false; }
    }
    ok := true;
  }

  lemma {:induction false} RefusedStays(body: string, i: nat, cap: nat)
    requires i <= |body| && Scanned(body[..i], cap).None?
    ensures Scanned(body, cap).None?
    decreases |body|
  {
    if i < |body| {
      assert body[..|body| - 1][..i] == body[..i];
      RefusedStays(body[..|body| - 1], i, cap);
    } else {
      assert body[..i] == body;
    }
  }

  lemma ScanNext(body: string, i: nat, cap: nat)
    requires i < |body|
    ensures Scanned(body[..i + 1], cap) ==
            match Scanned(body[..i], cap)
            case None => None
            case Some(s) => Step(s, body[i], cap)
  {
    hide Step;
    assert body[..i + 1][..i] == body[..i];
  }

  lemma ScanNothing(cap: nat)
    ensures Scanned("", cap) == Some(START)
  {
  }

  /** The decoding loop. */
  method DecodeBody(body: string, der: array<u8>) returns (ok: bool, pad: nat, chars: nat, out: nat)
    modifies der
    ensures ok <==> Scanned(body, der.Length).Some?
    ensures ok ==> out <= der.Length
                   && var s := Scanned(body, der.Length).value;
                      s.pad == pad && s.chars == chars && s.out == der[..out]
  {
    hide Scanned, ValueOf, Blank, Shifted, TopByte;
    ScanNothing(der.Length);
    var acc: u32, bits: nat := 0, 0;
    pad, chars, out := 0, 0, 0;
    for i := 0 to |body|
      invariant out <= der.Length && Scanned(body[..i], der.Length) == Some(Scan(acc, bits, pad, chars, der[..out]))
    {
      var c := body[i];
      ScanNext(body, i, der.Length);
      if Blank(c) {
      } else if c == '=' {
        pad, chars := pad + 1, chars + 1;
      } else {
        var v := ValueOf(c);
        if pad > 0 || v.None? {
          RefusedStays(body, i + 1, der.Length);
          return false, pad, chars, out;
        }
        chars, acc, bits := chars + 1, Shifted(acc, v.value), bits + 6;
        if bits >= 8 {
          bits := bits - 8;
          if out >= der.Length {
            RefusedStays(body, i + 1, der.Length);
            return false, pad, chars, out;
          }
          der[out] := TopByte(acc, bits);
          out := out + 1;
          assert der[..out] == der[..out - 1] + [TopByte(acc, bits)];
        }
      }
    }
    assert body[..|body|] == body;
    ok := true;
  }

  /** credPemToDer into the caller's buffer. */
  method PemToDerIn(pem: string, der: array<u8>) returns (ok: bool, derLen: nat)
    modifies der
    ensures ok <==> PemToDer(pem, der.Length).Some?
    ensures if ok then derLen <= der.Length && der[..derLen] == PemToDer(pem, der.Length).value else derLen == 0
  {
    hide FindFrom, AllBlank, Scanned;
    ok, derLen := false, 0;
    if |pem| > CA_MAX { return; }
    var b := FindIn(pem, BEGIN, 0);
    if b.None? { return; }
    var at := b.value + |BEGIN|;
    var e := FindIn(pem, END, at);
    if e.None? { return; }
    var before := OnlyBlanks(pem[..b.value]);
    if !before { return; }
    var behind := OnlyBlanks(pem[e.value + |END|..]);
    if !behind { return; }
    var done, pad, chars, out := DecodeBody(pem[at..e.value], der);
    if !done { return; }
    if chars == 0 || chars % 4 != 0 || pad > 2 { return; }
    if out < 2 || der[0] != 0x30 { return; }
    ok, derLen := true, out;
  }
}
