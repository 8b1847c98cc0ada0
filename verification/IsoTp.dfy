/** Receiving side of ISO 15765-2: one responder's frames become messages. */
module IsoTp {
  import opened Words

  const MAX := 160

  /** struct IsoTpRx. */
  datatype Rx = Rx(active: bool, total: u16, len: u16, nextSn: u8, buf: seq<u8>)

  datatype Event = Nothing | Complete | NeedFc | Error

  /** What holds of every receiver, whatever it is fed. */
  predicate Valid(r: Rx) {
    |r.buf| == MAX && r.len <= MAX && r.nextSn < 16 && (r.active ==> 6 <= r.len < r.total <= MAX)
  }

  /** memcpy into the buffer. */
  function Copied(buf: seq<u8>, at: nat, bytes: seq<u8>): (r: seq<u8>)
    requires at + |bytes| <= |buf|
    ensures |r| == |buf| && r[..at] == buf[..at] && r[at..at + |bytes|] == bytes
            && r[at + |bytes|..] == buf[at + |bytes|..]
  {
    buf[..at] + bytes + buf[at + |bytes|..]
  }

  function Drop(r: Rx): Rx { r.(active := false) }

  /** Single Frame. */
  function Single(r: Rx, d: seq<u8>): (Rx, Event)
    requires Valid(r) && |d| >= 1
  {
    var len := d[0] % 16;
    if len == 0 || len > 7 || len + 1 > |d| then (Drop(r), Error)
    else (r.(active := false, buf := Copied(r.buf, 0, d[1..1 + len]), len := len), Complete)
  }

  /** First Frame. */
  function FirstFrame(r: Rx, d: seq<u8>): (Rx, Event)
    requires Valid(r) && |d| >= 1
  {
    if |d| < 8 then (Drop(r), Error)
    else
      var hi: int := d[0] % 16;
      var total := hi * 256 + d[1];
      if total < 8 || total > MAX then (Drop(r), Error)
      else (Rx(true, total, 6, 1, Copied(r.buf, 0, d[2..8])), NeedFc)
  }

  /** How many bytes of a Consecutive Frame are taken. */
  function Take(r: Rx, d: seq<u8>): (n: nat)
    requires Valid(r) && r.active && |d| >= 1
    ensures n < |d| && r.len + n <= r.total
  {
    Min(Min(r.total - r.len, 7), |d| - 1)
  }

  /** Consecutive Frame. */
  function Consecutive(r: Rx, d: seq<u8>): (Rx, Event)
    requires Valid(r) && |d| >= 1
  {
    if !r.active then (r, Nothing)
    else if d[0] % 16 != r.nextSn then (Drop(r), Error)
    else
      var take := Take(r, d);
      var r' := r.(buf := Copied(r.buf, r.len, d[1..1 + take]), len := r.len + take, nextSn := (r.nextSn + 1) % 16);
      if r'.len >= r'.total then (Drop(r'), Complete) else (r', Nothing)
  }

  /** isoTpFeed on a frame of |d| bytes. */
  function Feed(r: Rx, d: seq<u8>): (p: (Rx, Event))
    requires Valid(r)
    ensures Valid(p.0)
  {
    if d == [] then (r, Nothing)
    else if d[0] / 16 == 0 then Single(r, d)
    else if d[0] / 16 == 1 then FirstFrame(r, d)
    else if d[0] / 16 == 2 then Consecutive(r, d)
    else (r, Nothing)
  }

  /** A message as the receiver hands it out. */
  function Message(r: Rx): seq<u8>
    requires Valid(r)
  {
    r.buf[..r.len]
  }

  // ---- frame by frame ----------------------------------------------------

  /** A Single Frame holds a message of 1 to 7 bytes, or is an error. */
  lemma SingleMeans(r: Rx, d: seq<u8>)
    requires Valid(r) && d != [] && d[0] < 0x10
    ensures var (r', ev) := Feed(r, d);
            && !r'.active
            && if 1 <= d[0] <= 7 && d[0] < |d| then ev == Complete && Message(r') == d[1..1 + d[0]] else ev == Error
  {
  }

  /** A First Frame begins a message of 8 to 160 bytes, or is an error. */
  lemma FirstMeans(r: Rx, d: seq<u8>)
    requires Valid(r) && d != [] && 0x10 <= d[0] < 0x20
    ensures var (r', ev) := Feed(r, d);
            var hi: int := d[0];
            if |d| >= 8 && 8 <= (hi - 0x10) * 256 + d[1] <= 160 then
              && ev == NeedFc && r'.active && r'.nextSn == 1
              && r'.total == (hi - 0x10) * 256 + d[1]
              && Message(r') == d[2..8]
            else ev == Error && !r'.active
  {
  }

  /** A Consecutive Frame nobody waits for is ignored; one out of sequence ends
      the message. */
  lemma StrayMeans(r: Rx, d: seq<u8>)
    requires Valid(r) && d != [] && 0x20 <= d[0] < 0x30
    ensures !r.active ==> Feed(r, d) == (r, Nothing)
    ensures r.active && d[0] - 0x20 != r.nextSn ==> Feed(r, d) == (r.(active := false), Error)
  {
  }

  /** Flow Control and unknown frames are ignored. */
  lemma OtherMeans(r: Rx, d: seq<u8>)
    requires Valid(r) && (d == [] || d[0] >= 0x30)
    ensures Feed(r, d) == (r, Nothing)
  {
  }

  // ---- segmentation ------------------------------------------------------

  /** Where the bytes of frame k of a long message start. */
  function Start(k: nat): nat { if k == 0 then 0 else 7 * k - 1 }

  function Cut(m: seq<u8>, k: nat): nat { Min(Start(k), |m|) }

  /** Section 9.6 of ISO 15765-2: d is frame k of m. Padding is anything, and
      a short last frame may be left unpadded. */
  predicate IsFrame(d: seq<u8>, m: seq<u8>, k: nat) {
    var part := m[Cut(m, k)..Cut(m, k + 1)];
    if |m| <= 7 then k == 0 && 1 + |m| <= |d| <= 8 && d[0] == |m| && d[1..1 + |m|] == m
    else if k == 0 then |d| == 8 && d[0] == 0x10 + |m| / 256 && d[1] == |m| % 256 && d[2..8] == part
    else 1 + |part| <= |d| <= 8 && d[0] == 0x20 + k % 16 && d[1..1 + |part|] == part
  }

  /** The frames of m, in order, nothing missing. */
  predicate IsSegmentation(fs: seq<seq<u8>>, m: seq<u8>) {
    && 1 <= |m| <= MAX && |fs| >= 1
    && (forall k :: 0 <= k < |fs| ==> IsFrame(fs[k], m, k))
    && (|m| > 7 ==> Start(|fs| - 1) < |m| <= Start(|fs|))
  }

  /** The receiver after the frames, and what each one reported. */
  function FeedAll(r: Rx, fs: seq<seq<u8>>): (p: (Rx, seq<Event>))
    requires Valid(r)
    ensures Valid(p.0) && |p.1| == |fs|
  {
    if fs == [] then (r, [])
    else
      var (r', evs) := FeedAll(r, fs[..|fs| - 1]);
      var (r'', ev) := Feed(r', fs[|fs| - 1]);
      (r'', evs + [ev])
  }

  /** Mid-message: k frames of m are in. */
  predicate Holds(r: Rx, m: seq<u8>, k: nat) {
    && Valid(r) && r.active && r.total == |m| && r.nextSn == k % 16
    && r.len == Start(k) < |m| && Message(r) == m[..r.len]
  }

  lemma FirstFed(r: Rx, d: seq<u8>, m: seq<u8>)
    requires Valid(r) && 7 < |m| <= MAX && IsFrame(d, m, 0)
    ensures var (r', ev) := Feed(r, d); ev == NeedFc && Holds(r', m, 1)
  {
    assert |m| / 256 == 0;
  }

  lemma CopiedUpTo(buf: seq<u8>, at: nat, bytes: seq<u8>)
    requires at + |bytes| <= |buf|
    ensures Copied(buf, at, bytes)[..at + |bytes|] == buf[..at] + bytes
  {
  }

  function Part(m: seq<u8>, k: nat): seq<u8> { m[Cut(m, k)..Cut(m, k + 1)] }

  lemma PartJoins(m: seq<u8>, k: nat)
    requires k >= 1 && Start(k) < |m|
    ensures |Part(m, k)| == Min(|m| - Start(k), 7) && Start(k) + |Part(m, k)| == Cut(m, k + 1)
    ensures m[..Start(k)] + Part(m, k) == m[..Cut(m, k + 1)]
  {
  }

  lemma NextIs(d: seq<u8>, m: seq<u8>, k: nat)
    requires k >= 1 && IsFrame(d, m, k)
    ensures 1 + |Part(m, k)| <= |d| <= 8 && d[0] / 16 == 2 && d[0] % 16 == k % 16
            && d[1..1 + |Part(m, k)|] == Part(m, k)
  {
  }

  /** A Consecutive Frame in sequence that brings the n bytes still wanted. */
  lemma Taken(r: Rx, d: seq<u8>, n: nat)
    requires Valid(r) && r.active && |d| >= 1 + n && n == Min(r.total - r.len, 7)
    requires d[0] / 16 == 2 && d[0] % 16 == r.nextSn
    ensures var (r', ev) := Feed(r, d);
            && Valid(r') && Message(r') == Message(r) + d[1..1 + n]
            && r'.len == r.len + n && r'.total == r.total && r'.nextSn == (r.nextSn + 1) % 16
            && r'.active == (r.len + n < r.total) && ev == if r'.active then Nothing else Complete
  {
    hide Copied;
    CopiedUpTo(r.buf, r.len, d[1..1 + n]);
  }

  lemma NextFed(r: Rx, d: seq<u8>, m: seq<u8>, k: nat)
    requires k >= 1 && Holds(r, m, k) && IsFrame(d, m, k)
    ensures var (r', ev) := Feed(r, d);
            if |m| <= Start(k + 1) then ev == Complete && !r'.active && Message(r') == m
            else ev == Nothing && Holds(r', m, k + 1)
  {
    hide Feed, Message, IsFrame, Part;
    NextIs(d, m, k);
    PartJoins(m, k);
    Taken(r, d, |Part(m, k)|);
    assert m[..|m|] == m;
  }

  lemma {:induction false} LongFed(r: Rx, fs: seq<seq<u8>>, m: seq<u8>, n: nat)
    requires Valid(r) && IsSegmentation(fs, m) && |m| > 7 && 1 <= n <= |fs|
    ensures var (r', evs) := FeedAll(r, fs[..n]);
            && evs[0] == NeedFc && (forall k :: 1 <= k < n && k < |fs| - 1 ==> evs[k] == Nothing)
            && (n < |fs| ==> Holds(r', m, n))
            && (n == |fs| ==> evs[n - 1] == Complete && !r'.active && Message(r') == m)
    decreases n
  {
    hide Feed, IsFrame, Holds, Message;
    assert fs[..n][..n - 1] == fs[..n - 1] && fs[..n][n - 1] == fs[n - 1];
    if n == 1 {
      assert fs[..0] == [];
      FirstFed(r, fs[0], m);
    } else {
      LongFed(r, fs, m, n - 1);
      NextFed(FeedAll(r, fs[..n - 1]).0, fs[n - 1], m, n - 1);
    }
  }

  lemma ShortFed(r: Rx, d: seq<u8>, m: seq<u8>)
    requires Valid(r) && 1 <= |m| <= 7 && IsFrame(d, m, 0)
    ensures var (r', ev) := Feed(r, d); ev == Complete && !r'.active && Message(r') == m
  {
    assert d[0] / 16 == 0 && d[0] % 16 == |m|;
  }

  lemma OneFrame(fs: seq<seq<u8>>, m: seq<u8>)
    requires IsSegmentation(fs, m)
    ensures |m| <= 7 <==> |fs| == 1
  {
    if |fs| > 1 { assert IsFrame(fs[1], m, 1); }
  }

  /** From any state of the receiver, the frames of a message end in exactly
      that message; Flow Control is asked for once, at the first frame, if and
      only if the message is longer than 7; nothing else is reported. */
  lemma Reassembles(r: Rx, fs: seq<seq<u8>>, m: seq<u8>)
    requires Valid(r) && IsSegmentation(fs, m)
    ensures var (r', evs) := FeedAll(r, fs);
            && evs[|fs| - 1] == Complete && Message(r') == m && !r'.active
            && (evs[0] == NeedFc <==> |m| > 7)
            && (forall k :: 0 < k < |fs| ==> evs[k] != NeedFc)
            && (forall k :: 0 <= k < |fs| ==> evs[k] != Error && (evs[k] == Complete ==> k == |fs| - 1))
  {
    hide Feed, IsFrame, Message;
    OneFrame(fs, m);
    assert fs[..|fs|] == fs;
    if |m| > 7 {
      LongFed(r, fs, m, |fs|);
    } else {
      ShortFed(r, fs[0], m);
      assert fs[..0] == [];
    }
  }

  // ---- loss and noise ----------------------------------------------------

  lemma NotDue(r: Rx, d: seq<u8>, m: seq<u8>, k: nat)
    requires k >= 1 && Holds(r, m, k) && IsFrame(d, m, k + 1)
    ensures var (r', ev) := Feed(r, d); ev == Error && !r'.active
  {
    assert d[0] / 16 == 2 && d[0] % 16 == (k + 1) % 16 != k % 16;
  }

  /** Frames of a message without its first one, into an idle receiver. */
  lemma {:induction false} TailIgnored(r: Rx, fs: seq<seq<u8>>, m: seq<u8>, k: nat)
    requires Valid(r) && !r.active && k >= 1 && |m| > 7 && forall i :: 0 <= i < |fs| ==> IsFrame(fs[i], m, k + i)
    ensures var (r', evs) := FeedAll(r, fs); r' == r && forall i :: 0 <= i < |fs| ==> evs[i] == Nothing
    decreases |fs|
  {
    if fs != [] {
      TailIgnored(r, fs[..|fs| - 1], m, k);
      assert IsFrame(fs[|fs| - 1], m, k + (|fs| - 1));
    }
  }

  lemma {:induction false} FeedTwice(r: Rx, a: seq<seq<u8>>, b: seq<seq<u8>>)
    requires Valid(r)
    ensures var (r1, e1) := FeedAll(r, a);
            FeedAll(r, a + b) == var (r2, e2) := FeedAll(r1, b); (r2, e1 + e2)
    decreases |b|
  {
    hide Feed;
    if b == [] {
      assert a + b == a;
      NothingFed(FeedAll(r, a).0);
      assert FeedAll(r, a).1 + [] == FeedAll(r, a).1;
    } else {
      FeedTwice(r, a, b[..|b| - 1]);
      assert (a + b)[..|a + b| - 1] == a + b[..|b| - 1];
      var (r1, e1) := FeedAll(r, a);
      var (r2, e2) := FeedAll(r1, b[..|b| - 1]);
      var ev := Feed(r2, b[|b| - 1]).1;
      assert (e1 + e2) + [ev] == e1 + (e2 + [ev]);
    }
  }

  lemma FeedOne(r: Rx, d: seq<u8>)
    requires Valid(r)
    ensures FeedAll(r, [d]) == (Feed(r, d).0, [Feed(r, d).1])
  {
    var fs := [d];
    assert fs[..0] == [] && FeedAll(r, fs[..0]) == (r, []);
    assert [] + [Feed(r, d).1] == [Feed(r, d).1];
  }

  /** A message that lost one Consecutive Frame is never handed out. */
  lemma LostFrameDetected(r: Rx, fs: seq<seq<u8>>, m: seq<u8>, k: nat)
    requires Valid(r) && IsSegmentation(fs, m) && |m| > 7 && 1 <= k < |fs|
    ensures var (_, evs) := FeedAll(r, fs[..k] + fs[k + 1..]);
            && (forall i :: 0 <= i < |evs| ==> evs[i] != Complete)
            && (k < |fs| - 1 ==> Error in evs)
  {
    hide Feed, IsFrame, Holds, FeedAll;
    var a, b := fs[..k], fs[k + 1..];
    LongFed(r, fs, m, k);
    FeedTwice(r, a, b);
    if b != [] {
      var r1 := FeedAll(r, a).0;
      forall i | 0 <= i < |b| ensures IsFrame(b[i], m, (k + 1) + i) { assert b[i] == fs[k + 1 + i]; }
      RestAfterLoss(r1, b, m, k);
      assert FeedAll(r, a + b).1[k] == FeedAll(r1, b).1[0];
    } else {
      NothingFed(FeedAll(r, a).0);
    }
  }

  lemma NothingFed(r: Rx)
    requires Valid(r)
    ensures FeedAll(r, []).1 == []
  {
  }

  lemma RestAfterLoss(r: Rx, b: seq<seq<u8>>, m: seq<u8>, k: nat)
    requires Valid(r) && k >= 1 && |m| > 7 && Holds(r, m, k) && b != []
    requires forall i :: 0 <= i < |b| ==> IsFrame(b[i], m, k + 1 + i)
    ensures var (_, evs) := FeedAll(r, b); evs[0] == Error && forall i :: 0 <= i < |b| ==> evs[i] != Complete
  {
    hide Feed, IsFrame, Holds, FeedAll;
    var c := b[1..];
    assert b == [b[0]] + c;
    FeedTwice(r, [b[0]], c);
    FeedOne(r, b[0]);
    assert IsFrame(b[0], m, k + 1 + 0);
    NotDue(r, b[0], m, k);
    forall i | 0 <= i < |c| ensures IsFrame(c[i], m, (k + 2) + i) { assert IsFrame(b[i + 1], m, k + 1 + (i + 1)); }
    TailIgnored(FeedAll(r, [b[0]]).0, c, m, k + 2);
  }

  // ---- in place ----------------------------------------------------------

  class Receiver {
    var active: bool
    var total: u16
    var len: u16
    var nextSn: u8
    const buf: array<u8>

    ghost function State(): Rx
      reads this, buf
    {
      Rx(active, total, len, nextSn, buf[..])
    }

    constructor ()
      ensures Valid(State()) && State() == Rx(false, 0, 0, 0, seq(MAX, i => 0)) && fresh(buf)
    {
      active, total, len, nextSn := false, 0, 0, 0;
      buf := new u8[MAX](i => 0);
    }

    /** memcpy(buf + at, d + from, n). */
    method CopyIn(at: nat, d: seq<u8>, from: nat, n: nat)
      requires at + n <= buf.Length && from + n <= |d|
      modifies buf
      ensures buf[..] == Copied(old(buf[..]), at, d[from..from + n])
    {
      ghost var was := buf[..];
      for i := 0 to n
        invariant buf[..at] == was[..at] && buf[at..at + i] == d[from..from + i] && buf[at + i..] == was[at + i..]
      {
        buf[at + i] := d[from + i];
        assert buf[at..at + i + 1] == buf[at..at + i] + [d[from + i]];
      }
      assert buf[..] == buf[..at] + buf[at..at + n] + buf[at + n..];
    }

    method FeedSingle(d: seq<u8>) returns (ev: Event)
      requires Valid(State()) && |d| >= 1
      modifies this, buf
      ensures (State(), ev) == Single(old(State()), d)
    {
      hide Copied;
      var n := d[0] % 16;
      active := false;
      if n == 0 || n > 7 || n + 1 > |d| { return Error; }
      CopyIn(0, d, 1, n);
      len := n;
      ev := Complete;
    }

    method FeedFirst(d: seq<u8>) returns (ev: Event)
      requires Valid(State()) && |d| >= 1
      modifies this, buf
      ensures (State(), ev) == FirstFrame(old(State()), d)
    {
      hide Copied;
      if |d| < 8 { active := false; return Error; }
      var hi: int := d[0] % 16;
      var t := hi * 256 + d[1];
      if t < 8 || t > MAX { active := false; return Error; }
      CopyIn(0, d, 2, 6);
      total, len, nextSn, active := t, 6, 1, true;
      ev := NeedFc;
    }

    method FeedConsecutive(d: seq<u8>) returns (ev: Event)
      requires Valid(State()) && |d| >= 1
      modifies this, buf
      ensures (State(), ev) == Consecutive(old(State()), d)
    {
      hide Copied, Take;
      if !active { return Nothing; }
      if d[0] % 16 != nextSn { active := false; return Error; }
      var take := Wanted(d);
      CopyIn(len, d, 1, take);
      len, nextSn := len + take, (nextSn + 1) % 16;
      if len >= total { active := false; return Complete; }
      ev := Nothing;
    }

    method Wanted(d: seq<u8>) returns (take: nat)
      requires Valid(State()) && active && |d| >= 1
      ensures take == Take(State(), d)
    {
      take := total - len;
      if take > 7 { take := 7; }
      if take > |d| - 1 { take := |d| - 1; }
    }

    /** isoTpFeed. */
    method FeedFrame(d: seq<u8>) returns (ev: Event)
      requires Valid(State())
      modifies this, buf
      ensures (State(), ev) == Feed(old(State()), d)
    {
      hide Single, FirstFrame, Consecutive, Valid;
      if |d| < 1 { return Nothing; }
      var pci := d[0] / 16;
      if pci == 0 {
        ev := FeedSingle(d);
      } else if pci == 1 {
        ev := FeedFirst(d);
      } else if pci == 2 {
        ev := FeedConsecutive(d);
      } else {
        ev := Nothing;
      }
    }
  }
}
