/** The NVS blob of a plan: version, count, then six bytes an entry, periods
    little-endian. */
module PlanBlob {
  import opened Words
  import opened LittleEndian
  import opened PlanContract

  function EntryBytes(e: Entry): (b: seq<u8>)
    ensures |b| == 6
  {
    [e.mode, e.pid] + Bytes32(e.periodMs)
  }

  function EntryAt(b: seq<u8>, at: nat): Entry
    requires at + 6 <= |b|
  {
    Entry(b[at], b[at + 1], Join32(b[at + 2], b[at + 3], b[at + 4], b[at + 5]))
  }

  predicate Decodes(b: seq<u8>, p: seq<Entry>) {
    && |b| == 2 + 6 * |p|
    && b[0] == 1 && b[1] == |p|
    && forall i :: 0 <= i < |p| ==> EntryAt(b, 2 + 6 * i) == p[i]
  }

  /** The six bytes from q on are mode, PID and period, lowest byte first. */
  predicate EntrySpelt(b: seq<u8>, q: nat, e: Entry)
    requires q + 6 <= |b|
  {
    var b0: int, b1: int, b2: int, b3: int := b[q + 2], b[q + 3], b[q + 4], b[q + 5];
    b[q] == e.mode && b[q + 1] == e.pid && e.periodMs == b0 + 0x100 * b1 + 0x1_0000 * b2 + 0x100_0000 * b3
  }

  /** The bytes of a blob: version 1, the count, then the entries. */
  lemma DecodesMeans(b: seq<u8>, p: seq<Entry>)
    ensures Decodes(b, p) <==>
            && |b| == 2 + 6 * |p| && b[0] == 1 && b[1] == |p|
            && forall i :: 0 <= i < |p| ==> EntrySpelt(b, 2 + 6 * i, p[i])
  {
    hide EntryAt, EntrySpelt;
    if |b| == 2 + 6 * |p| {
      forall i | 0 <= i < |p| ensures EntryAt(b, 2 + 6 * i) == p[i] <==> EntrySpelt(b, 2 + 6 * i, p[i]) {
        SpeltMeans(b, 2 + 6 * i, p[i]);
      }
    }
  }

  lemma SpeltMeans(b: seq<u8>, q: nat, e: Entry)
    requires q + 6 <= |b|
    ensures EntryAt(b, q) == e <==> EntrySpelt(b, q, e)
  {
    hide Join32;
    JoinIs(b[q + 2], b[q + 3], b[q + 4], b[q + 5]);
  }

  /** Adjacent entries in order: what the loop of planValid compares. */
  lemma AdjacentSorted(p: seq<Entry>)
    requires forall i :: 0 < i < |p| ==> Before(p[i - 1], p[i])
    ensures Sorted(p)
  {
    if |p| > 0 {
      AdjacentSorted(p[..|p| - 1]);
      forall i | 0 <= i < |p| - 1 ensures Before(p[i], p[|p| - 1]) {
        assert i < |p| - 2 ==> Before(p[..|p| - 1][i], p[..|p| - 1][|p| - 2]);
      }
      forall i, j | 0 <= i < j < |p| ensures Before(p[i], p[j]) {
        if j < |p| - 1 { assert Before(p[..|p| - 1][i], p[..|p| - 1][j]); }
      }
    }
  }

  method PlanValid(p: seq<Entry>) returns (ok: bool)
    ensures ok == PlanOk(p)
  {
    if |p| > PLAN_MAX { return false; }
    for i := 0 to |p|
      invariant forall k :: 0 <= k < i ==> EntryOk(p[k])
      invariant forall k :: 0 < k < i ==> Before(p[k - 1], p[k])
    {
      if !EntryOk(p[i]) { return false; }
      if i > 0 && !Before(p[i - 1], p[i]) { return false; }
    }
    AdjacentSorted(p);
    ok := true;
  }

  method PutEntry(e: Entry, buf: array<u8>, q: nat)
    requires q + 6 <= buf.Length
    modifies buf
    ensures EntryAt(buf[..], q) == e
    ensures buf[..q] == old(buf[..q]) && buf[q + 6..] == old(buf[q + 6..])
    ensures forall k :: 0 <= k < q || q + 6 <= k < buf.Length ==> buf[..][k] == old(buf[..])[k]
  {
    var b := EntryBytes(e);
    for j := 0 to 6
      invariant forall k :: 0 <= k < buf.Length ==> buf[k] == if q <= k < q + j then b[k - q] else old(buf[..])[k]
    {
      buf[q + j] := b[j];
    }
  }

  method PollPlanEncode(p: seq<Entry>, buf: array<u8>) returns (n: nat)
    modifies buf
    ensures n == (if |p| > PLAN_MAX || buf.Length < 2 + 6 * |p| then 0 else 2 + 6 * |p|)
    ensures n > 0 ==> Decodes(buf[..n], p) && buf[n..] == old(buf[n..])
    ensures n == 0 ==> buf[..] == old(buf[..])
  {
    var need := 2 + |p| * 6;
    if |p| > PLAN_MAX || buf.Length < need { return 0; }
    buf[0] := 1;
    buf[1] := |p|;
    for i := 0 to |p|
      invariant buf[0] == 1 && buf[1] == |p|
      invariant forall k :: 0 <= k < i ==> EntryAt(buf[..], 2 + 6 * k) == p[k]
      invariant buf[need..] == old(buf[need..])
    {
      ghost var was := buf[..];
      PutEntry(p[i], buf, 2 + 6 * i);
      forall k | 0 <= k < i ensures EntryAt(buf[..], 2 + 6 * k) == p[k] {
        assert EntryAt(was, 2 + 6 * k) == p[k];
      }
    }
    forall k | 0 <= k < |p| ensures EntryAt(buf[..need], 2 + 6 * k) == p[k] {
      assert EntryAt(buf[..], 2 + 6 * k) == p[k];
    }
    n := need;
  }

  method PollPlanDecode(buf: seq<u8>) returns (ok: bool, p: seq<Entry>)
    ensures ok ==> Decodes(buf, p) && PlanOk(p)
    ensures !ok ==> forall q :: !(Decodes(buf, q) && PlanOk(q))
  {
    p := [];
    if |buf| < 2 || buf[0] != 1 || buf[1] > PLAN_MAX { return false, p; }
    if |buf| != 2 + buf[1] * 6 { return false, p; }
    for i := 0 to buf[1]
      invariant |p| == i && forall k :: 0 <= k < i ==> p[k] == EntryAt(buf, 2 + 6 * k)
    {
      p := p + [EntryAt(buf, 2 + 6 * i)];
    }
    ok := PlanValid(p);
    forall q | Decodes(buf, q) ensures q == p { DecodesUnique(buf, p, q); }
  }

  lemma DecodesUnique(b: seq<u8>, p: seq<Entry>, q: seq<Entry>)
    requires Decodes(b, p) && Decodes(b, q)
    ensures p == q
  {
    forall i | 0 <= i < |p| ensures p[i] == q[i] {
      assert EntryAt(b, 2 + 6 * i) == p[i] && EntryAt(b, 2 + 6 * i) == q[i];
    }
  }

  /** A plan has one blob: what is decoded is encoded back byte for byte. */
  lemma BlobUnique(a: seq<u8>, b: seq<u8>, p: seq<Entry>)
    requires Decodes(a, p) && Decodes(b, p)
    ensures a == b
  {
    forall k | 0 <= k < |a| ensures a[k] == b[k] {
      if k >= 2 {
        var i := (k - 2) / 6;
        var at := 2 + 6 * i;
        assert EntryAt(a, at) == p[i] && EntryAt(b, at) == p[i];
        SplitJoin(a[at + 2], a[at + 3], a[at + 4], a[at + 5]);
        SplitJoin(b[at + 2], b[at + 3], b[at + 4], b[at + 5]);
      }
    }
  }
}
