/** The bookend record on flash and on the wire: little-endian, counted lists,
    read back to the data it was made from. And replies as an ECU builds them,
    parsed to what the ECU said. */
module BookendRecord {
  import opened Words
  import opened LittleEndian
  import opened Options
  import opened Bookend

  const REC_HEADER := 16
  const REC_MAX := 859

  // ---- bytes -------------------------------------------------------------

  function Read16(b: seq<u8>, at: nat): u16
    requires at + 2 <= |b|
  {
    Join16(b[at], b[at + 1])
  }

  function Read32(b: seq<u8>, at: nat): u32
    requires at + 4 <= |b|
  {
    Join32(b[at], b[at + 1], b[at + 2], b[at + 3])
  }

  function FlagsByte(f: Flags): u8 {
    (if f.complete then 1 else 0) + (if f.truncated then 2 else 0) + if f.noResponse then 4 else 0
  }

  function ReadFlags(b: u8): Flags { Flags(b % 2 == 1, b / 2 % 2 == 1, b / 4 % 2 == 1) }

  // ---- the record --------------------------------------------------------

  function DtcBytes(l: seq<Dtc>): (r: seq<u8>)
    ensures |r| == 3 * |l|
  {
    if l == [] then [] else DtcBytes(l[..|l| - 1]) + [l[|l| - 1].ecu] + Bytes16(l[|l| - 1].code)
  }

  function MonitorBytes(m: Monitor): (r: seq<u8>)
    ensures |r| == 10
  {
    [m.ecu, m.mid, m.tid, m.uasid] + Bytes16(m.value) + Bytes16(m.min) + Bytes16(m.max)
  }

  function MonitorListBytes(l: seq<Monitor>): (r: seq<u8>)
    ensures |r| == 10 * |l|
  {
    if l == [] then [] else MonitorListBytes(l[..|l| - 1]) + MonitorBytes(l[|l| - 1])
  }

  /** A record the source's arrays can hold. */
  predicate Holds(d: Data) {
    |d.pid01| == 4 && |d.stored| <= MAX_STORED && |d.pending| <= MAX_PENDING && |d.m06| <= MAX_M06
  }

  function PayloadLength(d: Data): (n: nat)
    requires Holds(d)
    ensures REC_HEADER + n <= REC_MAX
  {
    4 + 4 + 1 + 3 * |d.stored| + 1 + 3 * |d.pending| + 1 + 10 * |d.m06|
  }

  function Header(d: Data, deviceId: u32, bootId: u32, ms: u32): (r: seq<u8>)
    requires Holds(d)
    ensures |r| == 24
  {
    [3, 1] + Bytes16(PayloadLength(d)) + Bytes32(deviceId) + Bytes32(bootId) + Bytes32(ms)
    + [d.kind, FlagsByte(d.flags), 0, 0] + d.pid01
  }

  /** bookendEncode. */
  function Record(d: Data, deviceId: u32, bootId: u32, ms: u32): (r: seq<u8>)
    requires Holds(d)
    ensures |r| == REC_HEADER + PayloadLength(d) <= REC_MAX
  {
    Header(d, deviceId, bootId, ms)
    + [|d.stored|] + DtcBytes(d.stored) + [|d.pending|] + DtcBytes(d.pending) + [|d.m06|] + MonitorListBytes(d.m06)
  }

  // ---- reading it --------------------------------------------------------

  datatype Stamped = Stamped(d: Data, deviceId: u32, bootId: u32, ms: u32)

  function ReadDtcs(b: seq<u8>, n: nat): (l: seq<Dtc>)
    requires 3 * n <= |b|
    ensures |l| == n
  {
    seq(n, i requires 0 <= i < n => Dtc(b[3 * i], Read16(b, 3 * i + 1)))
  }

  function MonitorFrom(c: seq<u8>): Monitor
    requires |c| == 10
  {
    Monitor(c[0], c[1], c[2], c[3], Read16(c, 4), Read16(c, 6), Read16(c, 8))
  }

  function ReadMonitors(b: seq<u8>, n: nat): (l: seq<Monitor>)
    requires 10 * n <= |b|
    ensures |l| == n
  {
    seq(n, i requires 0 <= i < n => MonitorFrom(b[10 * i..10 * i + 10]))
  }

  /** A counted list: its length in a byte, the items, and what follows. */
  function Counted(b: seq<u8>, size: nat): Option<(seq<u8>, seq<u8>)> {
    if b == [] || size * b[0] > |b| - 1 || size == 0 then None
    else
      CountedFits(size, b[0]);
      Some((b[1..1 + size * b[0]], b[1 + size * b[0]..]))
  }

  lemma CountedFits(size: nat, n: nat)
    ensures size * n >= 0
  {
  }

  /** What the hub reads in a record. */
  function Read(b: seq<u8>): Option<Stamped> {
    if |b| < 24 || b[0] != 3 || b[1] != 1 || Read16(b, 2) != |b| - REC_HEADER then None
    else
      var (stored, r1) :- Counted(b[24..], 3);
      var (pending, r2) :- Counted(r1, 3);
      var (m06, r3) :- Counted(r2, 10);
      if r3 != [] then None
      else
        Some(Stamped(Data(b[16], ReadFlags(b[17]), b[20..24], ReadDtcs(stored, |stored| / 3),
                          ReadDtcs(pending, |pending| / 3), ReadMonitors(m06, |m06| / 10)),
                     Read32(b, 4), Read32(b, 8), Read32(b, 12)))
  }

  /** Bit 0 complete, bit 1 truncated, bit 2 no response. */
  lemma FlagBits(f: Flags)
    ensures FlagsByte(f) % 2 == 1 <==> f.complete
    ensures FlagsByte(f) / 2 % 2 == 1 <==> f.truncated
    ensures FlagsByte(f) / 4 == 1 <==> f.noResponse
    ensures FlagsByte(f) < 8
  {
  }

  lemma FlagsBack(f: Flags)
    ensures ReadFlags(FlagsByte(f)) == f
  {
  }

  lemma {:induction false} DtcAt(l: seq<Dtc>, i: nat)
    requires i < |l|
    ensures DtcBytes(l)[3 * i] == l[i].ecu && DtcBytes(l)[3 * i + 1..3 * i + 3] == Bytes16(l[i].code)
    decreases |l|
  {
    hide Bytes16;
    var n := |l| - 1;
    var a, b := DtcBytes(l[..n]), [l[n].ecu] + Bytes16(l[n].code);
    assert DtcBytes(l) == a + b;
    if i < n {
      DtcAt(l[..n], i);
      assert (a + b)[3 * i + 1..3 * i + 3] == a[3 * i + 1..3 * i + 3];
    } else {
      assert (a + b)[3 * n..] == b && b[1..3] == Bytes16(l[n].code);
      assert (a + b)[3 * n + 1..3 * n + 3] == b[1..3];
    }
  }

  lemma DtcsBack(l: seq<Dtc>)
    ensures ReadDtcs(DtcBytes(l), |l|) == l
  {
    hide DtcBytes, Bytes16;
    var b := DtcBytes(l);
    forall i | 0 <= i < |l| ensures ReadDtcs(b, |l|)[i] == l[i] {
      DtcAt(l, i);
      assert b[3 * i + 1..3 * i + 3] == [b[3 * i + 1], b[3 * i + 2]];
    }
  }

  lemma {:induction false} MonitorBytesAt(l: seq<Monitor>, i: nat)
    requires i < |l|
    ensures MonitorListBytes(l)[10 * i..10 * i + 10] == MonitorBytes(l[i])
    decreases |l|
  {
    hide MonitorBytes;
    var n := |l| - 1;
    if i < n {
      MonitorBytesAt(l[..n], i);
      assert MonitorListBytes(l)[10 * i..10 * i + 10] == MonitorListBytes(l[..n])[10 * i..10 * i + 10];
    }
  }

  lemma MonitorBack(m: Monitor)
    ensures MonitorFrom(MonitorBytes(m)) == m
  {
  }

  lemma MonitorsBack(l: seq<Monitor>)
    ensures ReadMonitors(MonitorListBytes(l), |l|) == l
  {
    hide MonitorListBytes, MonitorBytes, MonitorFrom;
    var b := MonitorListBytes(l);
    forall i | 0 <= i < |l| ensures ReadMonitors(b, |l|)[i] == l[i] {
      MonitorBytesAt(l, i);
      MonitorBack(l[i]);
    }
  }

  lemma CountedBack(size: nat, n: u8, items: seq<u8>, rest: seq<u8>)
    requires |items| == size * n && size > 0
    ensures Counted([n] + items + rest, size) == Some((items, rest))
  {
    var b := [n] + items + rest;
    assert b[1..1 + size * n] == items && b[1 + size * n..] == rest;
  }

  function Stamps(payload: u16, deviceId: u32, bootId: u32, ms: u32): (r: seq<u8>)
    ensures |r| == 16
  {
    [3, 1] + Bytes16(payload) + Bytes32(deviceId) + Bytes32(bootId) + Bytes32(ms)
  }

  lemma StampsBack(payload: u16, deviceId: u32, bootId: u32, ms: u32, rest: seq<u8>)
    ensures var h := Stamps(payload, deviceId, bootId, ms) + rest;
            && h[0] == 3 && h[1] == 1 && Read16(h, 2) == payload
            && Read32(h, 4) == deviceId && Read32(h, 8) == bootId && Read32(h, 12) == ms
  {
  }

  lemma HeaderParts(d: Data, deviceId: u32, bootId: u32, ms: u32)
    requires Holds(d)
    ensures Header(d, deviceId, bootId, ms)
         == Stamps(PayloadLength(d), deviceId, bootId, ms) + ([d.kind, FlagsByte(d.flags), 0, 0] + d.pid01)
  {
  }

  lemma HeaderBack(d: Data, deviceId: u32, bootId: u32, ms: u32)
    requires Holds(d)
    ensures var h := Header(d, deviceId, bootId, ms);
            && h[0] == 3 && h[1] == 1 && Read16(h, 2) == PayloadLength(d)
            && Read32(h, 4) == deviceId && Read32(h, 8) == bootId && Read32(h, 12) == ms
            && h[16] == d.kind && ReadFlags(h[17]) == d.flags && h[20..24] == d.pid01
  {
    hide PayloadLength, Bytes16, Bytes32;
    FlagsBack(d.flags);
    StampsBack(PayloadLength(d), deviceId, bootId, ms, [d.kind, FlagsByte(d.flags), 0, 0] + d.pid01);
    HeaderParts(d, deviceId, bootId, ms);
  }

  /** Every record the logger can make is read back to its data and stamps. */
  lemma RecordRoundTrip(d: Data, deviceId: u32, bootId: u32, ms: u32)
    requires Holds(d)
    ensures Read(Record(d, deviceId, bootId, ms)) == Some(Stamped(d, deviceId, bootId, ms))
  {
    hide Header, DtcBytes, MonitorListBytes, ReadDtcs, ReadMonitors, Counted, ReadFlags, Read16, Read32;
    var h, b := Header(d, deviceId, bootId, ms), Record(d, deviceId, bootId, ms);
    var m := [|d.m06|] + MonitorListBytes(d.m06) + [];
    var p := [|d.pending|] + DtcBytes(d.pending) + m;
    var s := [|d.stored|] + DtcBytes(d.stored) + p;
    assert b == h + s;
    HeaderBack(d, deviceId, bootId, ms);
    ReadsInHeader(h, s);
    CountedBack(3, |d.stored|, DtcBytes(d.stored), p);
    CountedBack(3, |d.pending|, DtcBytes(d.pending), m);
    CountedBack(10, |d.m06|, MonitorListBytes(d.m06), []);
    DtcsBack(d.stored);
    DtcsBack(d.pending);
    MonitorsBack(d.m06);
    assert b[24..] == s;
  }

  lemma ReadsInHeader(h: seq<u8>, s: seq<u8>)
    requires |h| == 24
    ensures var b := h + s;
            && b[0] == h[0] && b[1] == h[1] && b[16] == h[16] && b[17] == h[17] && b[20..24] == h[20..24]
            && Read16(b, 2) == Read16(h, 2)
            && Read32(b, 4) == Read32(h, 4) && Read32(b, 8) == Read32(h, 8) && Read32(b, 12) == Read32(h, 12)
  {
  }

  // ---- writing it in place -----------------------------------------------

  /** Nothing from r on has changed. */
  ghost predicate After(was: seq<u8>, now: seq<u8>, r: nat) {
    |was| == |now| && forall k :: r <= k < |now| ==> now[k] == was[k]
  }

  method Put8(buf: array<u8>, q: nat, v: u8) returns (r: nat)
    requires q < buf.Length
    modifies buf
    ensures r == q + 1 && buf[..r] == old(buf[..q]) + [v] && After(old(buf[..]), buf[..], r)
  {
    buf[q] := v;
    r := q + 1;
  }

  method Put16(buf: array<u8>, q: nat, v: u16) returns (r: nat)
    requires q + 2 <= buf.Length
    modifies buf
    ensures r == q + 2 && buf[..r] == old(buf[..q]) + Bytes16(v) && After(old(buf[..]), buf[..], r)
  {
    buf[q], buf[q + 1] := v % 0x100, v / 0x100;
    r := q + 2;
  }

  method Put32(buf: array<u8>, q: nat, v: u32) returns (r: nat)
    requires q + 4 <= buf.Length
    modifies buf
    ensures r == q + 4 && buf[..r] == old(buf[..q]) + Bytes32(v) && After(old(buf[..]), buf[..], r)
  {
    var x := v;
    ghost var b := Bytes32(v);
    for i := 0 to 4
      invariant buf[..q] == old(buf[..q]) && After(old(buf[..]), buf[..], q + 4)
      invariant forall k :: 0 <= k < i ==> buf[q + k] == b[k]
      invariant i == 0 ==> x == v
      invariant i == 1 ==> x == v / 0x100
      invariant i == 2 ==> x == v / 0x100 / 0x100
      invariant i == 3 ==> x == v / 0x100 / 0x100 / 0x100
    {
      buf[q + i] := x % 0x100;
      x := x / 0x100;
    }
    r := q + 4;
    assert buf[..r] == buf[..q] + [buf[q], buf[q + 1], buf[q + 2], buf[q + 3]];
  }

  method PutDtcs(buf: array<u8>, q: nat, l: seq<Dtc>) returns (r: nat)
    requires q + 1 + 3 * |l| <= buf.Length && |l| < 0x100
    modifies buf
    ensures r == q + 1 + 3 * |l| && buf[..r] == old(buf[..q]) + [|l|] + DtcBytes(l) && After(old(buf[..]), buf[..], r)
  {
    ghost var was := buf[..];
    r := Put8(buf, q, |l|);
    ghost var start := buf[..r];
    for i := 0 to |l|
      invariant r == q + 1 + 3 * i && buf[..r] == start + DtcBytes(l[..i]) && After(was, buf[..], r)
    {
      assert l[..i + 1][..i] == l[..i];
      ghost var before := buf[..r];
      r := Put8(buf, r, l[i].ecu);
      r := Put16(buf, r, l[i].code);
      assert buf[..r] == before + ([l[i].ecu] + Bytes16(l[i].code));
    }
    assert l[..|l|] == l;
  }

  method PutMonitor(buf: array<u8>, q: nat, m: Monitor) returns (r: nat)
    requires q + 10 <= buf.Length
    modifies buf
    ensures r == q + 10 && buf[..r] == old(buf[..q]) + MonitorBytes(m) && After(old(buf[..]), buf[..], r)
  {
    ghost var before := buf[..q];
    r := Put8(buf, q, m.ecu);
    r := Put8(buf, r, m.mid);
    r := Put8(buf, r, m.tid);
    r := Put8(buf, r, m.uasid);
    assert buf[..r] == before + [m.ecu, m.mid, m.tid, m.uasid];
    r := Put16(buf, r, m.value);
    r := Put16(buf, r, m.min);
    r := Put16(buf, r, m.max);
  }

  method PutMonitors(buf: array<u8>, q: nat, l: seq<Monitor>) returns (r: nat)
    requires q + 1 + 10 * |l| <= buf.Length && |l| < 0x100
    modifies buf
    ensures r == q + 1 + 10 * |l| && buf[..r] == old(buf[..q]) + [|l|] + MonitorListBytes(l)
            && After(old(buf[..]), buf[..], r)
  {
    hide MonitorBytes;
    ghost var was := buf[..];
    r := Put8(buf, q, |l|);
    ghost var start := buf[..r];
    for i := 0 to |l|
      invariant r == q + 1 + 10 * i && buf[..r] == start + MonitorListBytes(l[..i]) && After(was, buf[..], r)
    {
      assert l[..i + 1][..i] == l[..i];
      r := PutMonitor(buf, r, l[i]);
    }
    assert l[..|l|] == l;
  }

  method PutStamp(buf: array<u8>, deviceId: u32, bootId: u32, ms: u32, payload: u16) returns (q: nat)
    requires buf.Length >= 16
    modifies buf
    ensures q == 16 && After(old(buf[..]), buf[..], q)
    ensures buf[..q] == [3, 1] + Bytes16(payload) + Bytes32(deviceId) + Bytes32(bootId) + Bytes32(ms)
  {
    hide Bytes32, Bytes16;
    q := Put8(buf, 0, 3);
    q := Put8(buf, q, 1);
    q := Put16(buf, q, payload);
    q := Put32(buf, q, deviceId);
    q := Put32(buf, q, bootId);
    q := Put32(buf, q, ms);
  }

  method PutPid01(buf: array<u8>, q: nat, pid01: seq<u8>) returns (r: nat)
    requires q + 4 <= buf.Length && |pid01| == 4
    modifies buf
    ensures r == q + 4 && After(old(buf[..]), buf[..], r) && buf[..r] == old(buf[..q]) + pid01
  {
    r := Put8(buf, q, pid01[0]);
    r := Put8(buf, r, pid01[1]);
    r := Put8(buf, r, pid01[2]);
    r := Put8(buf, r, pid01[3]);
  }

  method PutKind(buf: array<u8>, q: nat, d: Data) returns (r: nat)
    requires q + 8 <= buf.Length && |d.pid01| == 4
    modifies buf
    ensures r == q + 8 && After(old(buf[..]), buf[..], r)
    ensures buf[..r] == old(buf[..q]) + [d.kind, FlagsByte(d.flags), 0, 0] + d.pid01
  {
    hide Bytes16, FlagsByte;
    r := PutTwo(buf, q, d.kind, FlagsByte(d.flags));
    r := PutTwo(buf, r, 0, 0);
    ghost var before := buf[..r];
    r := PutPid01(buf, r, d.pid01);
    assert before == old(buf[..q]) + [d.kind, FlagsByte(d.flags), 0, 0];
  }

  method PutTwo(buf: array<u8>, q: nat, a: u8, b: u8) returns (r: nat)
    requires q + 2 <= buf.Length
    modifies buf
    ensures r == q + 2 && buf[..r] == old(buf[..q]) + [a, b] && After(old(buf[..]), buf[..], r)
  {
    r := Put8(buf, q, a);
    r := Put8(buf, r, b);
  }

  lemma HeaderIs(d: Data, deviceId: u32, bootId: u32, ms: u32)
    requires Holds(d)
    ensures Header(d, deviceId, bootId, ms)
         == [3, 1] + Bytes16(PayloadLength(d)) + Bytes32(deviceId) + Bytes32(bootId) + Bytes32(ms)
            + [d.kind, FlagsByte(d.flags), 0, 0] + d.pid01
  {
  }

  /** The three counted lists. */
  method PutLists(buf: array<u8>, q: nat, d: Data) returns (r: nat)
    requires Holds(d) && q + 3 + 3 * |d.stored| + 3 * |d.pending| + 10 * |d.m06| <= buf.Length
    modifies buf
    ensures r == q + 3 + 3 * |d.stored| + 3 * |d.pending| + 10 * |d.m06| && After(old(buf[..]), buf[..], r)
    ensures buf[..r] == old(buf[..q]) + [|d.stored|] + DtcBytes(d.stored) + [|d.pending|] + DtcBytes(d.pending)
                        + [|d.m06|] + MonitorListBytes(d.m06)
  {
    hide DtcBytes, MonitorListBytes;
    r := PutDtcs(buf, q, d.stored);
    r := PutDtcs(buf, r, d.pending);
    r := PutMonitors(buf, r, d.m06);
  }

  /** bookendEncode: the whole record, or nothing if it does not fit. */
  method EncodeRecord(d: Data, deviceId: u32, bootId: u32, ms: u32, buf: array<u8>) returns (n: nat)
    requires Holds(d)
    modifies buf
    ensures n == if buf.Length < |Record(d, deviceId, bootId, ms)| then 0 else |Record(d, deviceId, bootId, ms)|
    ensures n > 0 ==> buf[..n] == Record(d, deviceId, bootId, ms)
    ensures After(old(buf[..]), buf[..], n)
  {
    hide Header, DtcBytes, MonitorListBytes, Bytes16, Bytes32, FlagsByte;
    var payload := 4 + 4 + 1 + 3 * |d.stored| + 1 + 3 * |d.pending| + 1 + 10 * |d.m06|;
    if buf.Length < REC_HEADER + payload { return 0; }
    n := PutStamp(buf, deviceId, bootId, ms, payload);
    n := PutKind(buf, n, d);
    HeaderIs(d, deviceId, bootId, ms);
    n := PutLists(buf, n, d);
  }

  // ---- replies as an ECU builds them -------------------------------------

  function CodeBytes(codes: seq<u16>): (r: seq<u8>)
    ensures |r| == 2 * |codes|
  {
    if codes == [] then []
    else CodeBytes(codes[..|codes| - 1]) + [codes[|codes| - 1] / 0x100, codes[|codes| - 1] % 0x100]
  }

  /** A Mode 03 or Mode 07 reply. */
  function DtcReply(pending: bool, codes: seq<u16>): seq<u8>
    requires |codes| < 0x100
  {
    [if pending then 0x47 else 0x43, |codes|] + CodeBytes(codes)
  }

  function Tagged(ecu: u8, codes: seq<u16>): seq<Dtc> {
    if codes == [] then []
    else Tagged(ecu, codes[..|codes| - 1]) + if codes[|codes| - 1] == 0 then [] else [Dtc(ecu, codes[|codes| - 1])]
  }

  lemma {:induction false} CodeBytesAt(codes: seq<u16>, i: nat)
    requires i < |codes|
    ensures CodeBytes(codes)[2 * i] == codes[i] / 0x100 && CodeBytes(codes)[2 * i + 1] == codes[i] % 0x100
    decreases |codes|
  {
    if i < |codes| - 1 { CodeBytesAt(codes[..|codes| - 1], i); }
  }

  lemma CodeRead(pending: bool, codes: seq<u16>, i: nat)
    requires i < |codes| < 0x100
    ensures CodeAt(DtcReply(pending, codes), i) == codes[i]
  {
    hide CodeBytes;
    CodeBytesAt(codes, i);
    assert codes[i] == codes[i] / 0x100 * 0x100 + codes[i] % 0x100;
  }

  lemma {:induction false} CodesRead(ecu: u8, p: seq<u8>, codes: seq<u16>)
    requires 2 + 2 * |codes| <= |p| && forall i :: 0 <= i < |codes| ==> CodeAt(p, i) == codes[i]
    ensures Codes(ecu, p, |codes|) == Tagged(ecu, codes)
    decreases |codes|
  {
    hide CodeAt;
    if codes != [] { CodesRead(ecu, p, codes[..|codes| - 1]); }
  }

  /** A DTC reply adds the ECU's non-zero codes, in order, up to the cap, and
      says so when some did not fit. */
  lemma DtcReplyRead(d: Data, ecu: u8, pending: bool, codes: seq<u16>)
    requires |codes| < 0x100 && |d.stored| <= MAX_STORED && |d.pending| <= MAX_PENDING
    ensures var r := ParseDtcs(d, ecu, pending, DtcReply(pending, codes));
            var had := if pending then d.pending else d.stored;
            var has := if pending then r.pending else r.stored;
            && has == (had + Tagged(ecu, codes))[..Min(|had| + |Tagged(ecu, codes)|, 32)]
            && (r.flags.truncated <==> d.flags.truncated || |had| + |Tagged(ecu, codes)| > 32)
            && (if pending then r.stored == d.stored else r.pending == d.pending)
  {
    hide Codes, CodeAt, CodeBytes, Tagged;
    var p := DtcReply(pending, codes);
    forall i | 0 <= i < |codes| ensures CodeAt(p, i) == codes[i] { CodeRead(pending, codes, i); }
    CodesRead(ecu, p, codes);
  }

  /** n MIDs from first on, the first one leftmost. */
  function Packed(mids: set<u8>, first: nat, n: nat): nat {
    if n == 0 then 0 else 2 * Packed(mids, first, n - 1) + if first + n - 1 in mids then 1 else 0
  }

  lemma PackedFits(mids: set<u8>, first: nat)
    ensures Packed(mids, first, 8) < 0x100
  {
    assert Packed(mids, first, 1) < 2;
    assert Packed(mids, first, 2) < 4;
    assert Packed(mids, first, 3) < 8;
    assert Packed(mids, first, 4) < 16;
    assert Packed(mids, first, 6) < 64;
  }

  function PackedByte(mids: set<u8>, first: nat): u8 {
    PackedFits(mids, first);
    Packed(mids, first, 8)
  }

  /** The reply to a request for support page base. */
  function SupportReply(base: u8, mids: set<u8>): seq<u8> {
    [0x46, base, PackedByte(mids, base + 1), PackedByte(mids, base + 9), PackedByte(mids, base + 17),
     PackedByte(mids, base + 25)]
  }

  lemma {:induction false} Shifted(mids: set<u8>, first: nat, n: nat)
    ensures n > 0 ==> Packed(mids, first, n) / 2 == Packed(mids, first, n - 1)
    ensures n > 0 ==> (Packed(mids, first, n) % 2 == 1 <==> first + n - 1 in mids)
  {
  }

  lemma Halvings(x: nat)
    ensures x / 4 == x / 2 / 2 && x / 8 == x / 4 / 2 && x / 16 == x / 8 / 2
    ensures x / 32 == x / 16 / 2 && x / 64 == x / 32 / 2 && x / 128 == x / 64 / 2
  {
  }

  lemma PackedPrefixes(mids: set<u8>, first: nat)
    ensures var x := Packed(mids, first, 8);
            && x / 2 == Packed(mids, first, 7) && x / 4 == Packed(mids, first, 6) && x / 8 == Packed(mids, first, 5)
            && x / 16 == Packed(mids, first, 4) && x / 32 == Packed(mids, first, 3) && x / 64 == Packed(mids, first, 2)
            && x / 128 == Packed(mids, first, 1)
  {
    hide Packed;
    Halvings(Packed(mids, first, 8));
    for i := 1 to 9
      invariant forall n :: 0 < n < i ==> Packed(mids, first, n) / 2 == Packed(mids, first, n - 1)
    {
      Shifted(mids, first, i);
    }
  }

  lemma TopBitIs(b: u8, k: nat)
    requires k < 8
    ensures TopBit(b, k) <==> (match k
                               case 0 => b / 128
                               case 1 => b / 64
                               case 2 => b / 32
                               case 3 => b / 16
                               case 4 => b / 8
                               case 5 => b / 4
                               case 6 => b / 2
                               case _ => b) % 2 == 1
  {
  }

  lemma PackedBit(mids: set<u8>, first: nat, k: nat)
    requires k < 8
    ensures TopBit(PackedByte(mids, first), k) <==> first + k in mids
  {
    hide Packed, TopBit;
    PackedPrefixes(mids, first);
    TopBitIs(PackedByte(mids, first), k);
    Shifted(mids, first, k + 1);
  }

  /** A support page is read to exactly the MIDs it advertises. */
  lemma SupportReplyRead(base: u8, mids: set<u8>)
    ensures SupportOf(base, SupportReply(base, mids)) == set m | m in mids && base < m <= base + 32
  {
    hide PackedByte, TopBit;
    var p := SupportReply(base, mids);
    forall m: u8 | base < m <= base + 32 ensures Advertised(base, p, m) <==> m in mids {
      var bit: nat := m - base - 1;
      var j, k := bit / 8, bit % 8;
      PackedBit(mids, base + 1 + 8 * j, k);
      assert p[2 + j] == PackedByte(mids, base + 1 + 8 * j);
    }
  }

  // ---- monitor results and the engine's answer ---------------------------

  /** One monitor result as an ECU sends it, high bytes first. */
  function MonitorPiece(m: Monitor): (b: seq<u8>)
    ensures |b| == 9
  {
    [m.mid, m.tid, m.uasid, m.value / 0x100, m.value % 0x100, m.min / 0x100, m.min % 0x100,
     m.max / 0x100, m.max % 0x100]
  }

  function MonitorPieces(ms: seq<Monitor>): (b: seq<u8>)
    ensures |b| == 9 * |ms|
  {
    if ms == [] then [] else MonitorPieces(ms[..|ms| - 1]) + MonitorPiece(ms[|ms| - 1])
  }

  /** A Mode 06 reply. */
  function MonitorReply(ms: seq<Monitor>): seq<u8> { [0x46] + MonitorPieces(ms) }

  lemma {:induction false} PieceAt(ms: seq<Monitor>, i: nat)
    requires i < |ms|
    ensures MonitorPieces(ms)[9 * i..9 * i + 9] == MonitorPiece(ms[i])
    decreases |ms|
  {
    hide MonitorPiece;
    var n := |ms| - 1;
    if i < n {
      PieceAt(ms[..n], i);
      assert MonitorPieces(ms)[9 * i..9 * i + 9] == MonitorPieces(ms[..n])[9 * i..9 * i + 9];
    }
  }

  lemma PieceRead(ecu: u8, p: seq<u8>, o: nat, m: Monitor)
    requires o + 9 <= |p| && p[o..o + 9] == MonitorPiece(m)
    ensures MonitorAt(ecu, p, o) == m.(ecu := ecu)
  {
    assert p[o..o + 9] == [p[o], p[o + 1], p[o + 2], p[o + 3], p[o + 4], p[o + 5], p[o + 6], p[o + 7], p[o + 8]];
    WordSplit(m.value);
    WordSplit(m.min);
    WordSplit(m.max);
  }

  lemma WordSplit(v: u16)
    ensures Word(v / 0x100, v % 0x100) == v
  {
  }

  function By(ecu: u8, ms: seq<Monitor>): (r: seq<Monitor>)
    ensures |r| == |ms| && forall i :: 0 <= i < |ms| ==> r[i] == ms[i].(ecu := ecu)
  {
    seq(|ms|, i requires 0 <= i < |ms| => ms[i].(ecu := ecu))
  }

  lemma {:induction false} MonitorsRead(ecu: u8, p: seq<u8>, ms: seq<Monitor>, n: nat)
    requires n <= |ms| && 9 * |ms| + 1 <= |p|
    requires forall i :: 0 <= i < |ms| ==> By(ecu, ms)[i] == MonitorAt(ecu, p, 9 * i + 1)
    ensures Monitors(ecu, p, n) == By(ecu, ms)[..n]
  {
    hide MonitorAt;
    if n > 0 {
      var m: nat := n - 1;
      MonitorsRead(ecu, p, ms, m);
      assert 9 * (n - 1) + 1 == 9 * m + 1;
    }
  }

  /** A Mode 06 reply adds the ECU's results, in order, up to the cap, and says
      so when some did not fit. */
  lemma MonitorReplyRead(d: Data, ecu: u8, ms: seq<Monitor>)
    requires |d.m06| <= MAX_M06 && ms != []
    ensures var r := ParseM06Results(d, ecu, MonitorReply(ms));
            && r.m06 == (d.m06 + By(ecu, ms))[..Min(|d.m06| + |ms|, 64)]
            && (r.flags.truncated <==> d.flags.truncated || |d.m06| + |ms| > 64)
            && r == d.(m06 := r.m06, flags := d.flags.(truncated := r.flags.truncated))
  {
    hide Monitors, MonitorPieces, MonitorAt;
    var p := MonitorReply(ms);
    forall i | 0 <= i < |ms| ensures By(ecu, ms)[i] == MonitorAt(ecu, p, 9 * i + 1) {
      PieceAt(ms, i);
      assert p[9 * i + 1..9 * i + 10] == MonitorPieces(ms)[9 * i..9 * i + 9];
      PieceRead(ecu, p, 9 * i + 1, ms[i]);
    }
    assert (|p| - 1) / 9 == |ms|;
    MonitorsRead(ecu, p, ms, |ms|);
  }

  /** The engine's answer to Mode 01 PID 01, whatever is behind the four bytes;
      nothing else is taken for one. */
  lemma EngineAnswerRead(p: seq<u8>, bytes: seq<u8>)
    ensures Pid01(p) == Some(bytes) <==> |bytes| == 4 && [0x41, 0x01] + bytes <= p
  {
    if |bytes| == 4 && [0x41, 0x01] + bytes <= p {
      var head := [0x41, 0x01] + bytes;
      assert p[..6] == head && head[0] == 0x41 && head[1] == 0x01 && p[2..6] == p[..6][2..];
    }
    if Pid01(p) == Some(bytes) { assert p[..6] == [0x41, 0x01] + bytes; }
  }

  // ---- what the sequencer takes from a reply -----------------------------

  /** Replies to the requests as the walk sends them: what each adds to the
      record, and what any other message adds, which is nothing. */
  lemma RepliesTaken(s: Seq, ecu: u8, codes: seq<u16>, ms: seq<Monitor>, mids: set<u8>)
    requires |codes| < 0x100 && ms != []
    ensures s.step == M03Step && s.reqMode == 0x03 ==>
              var r := Handle(s, ecu, DtcReply(false, codes));
              r == s.(any := true, d := ParseDtcs(s.d, ecu, false, DtcReply(false, codes)))
    ensures s.step == M07Step && s.reqMode == 0x07 ==>
              var r := Handle(s, ecu, DtcReply(true, codes));
              r == s.(any := true, d := ParseDtcs(s.d, ecu, true, DtcReply(true, codes)))
    ensures s.step == MidStep && s.reqMode == 0x06 && s.reqPid == ms[0].mid ==>
              var r := Handle(s, ecu, MonitorReply(ms));
              r == s.(any := true, d := ParseM06Results(s.d, ecu, MonitorReply(ms)))
    ensures s.step == SupportStep && s.reqMode == 0x06 ==>
              var r := Handle(s, ecu, SupportReply(s.base, mids));
              r == s.(any := true, support := s.support + set m | m in mids && s.base < m <= s.base + 32)
  {
    hide ParseDtcs, ParseM06Results, SupportOf, MonitorPiece, PackedByte, CodeBytes;
    SupportReplyRead(s.base, mids);
    FirstPiece(ms);
  }

  lemma FirstPiece(ms: seq<Monitor>)
    requires ms != []
    ensures MonitorReply(ms)[1] == ms[0].mid
  {
    PieceAt(ms, 0);
    assert MonitorPieces(ms)[0] == MonitorPieces(ms)[0..9][0];
  }

  /** A message that answers another mode than the one asked changes nothing. */
  lemma OthersIgnored(s: Seq, ecu: u8, p: seq<u8>)
    requires p == [] || p[0] != (s.reqMode + 0x40) % 0x100
    ensures Handle(s, ecu, p) == s
  {
  }
}
