/** Bytes in use, kept in RAM by deltas instead of walking the filesystem. */
module FsUsage {
  import opened Words
  import opened Arithmetic

  /** struct FsUsage. */
  datatype Usage = Usage(blockBytes: u32, inlineMax: u32, totalBytes: u32, usedBytes: u32, live: bool)

  /** fsDataBlocks: small files cost no block, others whole blocks. */
  function Blocks(u: Usage, bytes: u32): (n: u32)
    ensures n == 0 <==> (bytes <= u.inlineMax || u.blockBytes == 0)
    ensures n > 0 ==> (n - 1) * u.blockBytes < bytes <= n * u.blockBytes
  {
    if bytes <= u.inlineMax || u.blockBytes == 0 then 0
    else
      BlocksBound(bytes, u.blockBytes);
      (bytes + u.blockBytes - 1) / u.blockBytes
  }

  lemma BlocksBound(bytes: nat, block: nat)
    requires 0 < bytes && 0 < block
    ensures var n := (bytes + block - 1) / block; 0 < n <= bytes && (n - 1) * block < bytes <= n * block
  {
    var n, r := (bytes + block - 1) / block, (bytes + block - 1) % block;
    assert bytes + block - 1 == n * block + r;
    assert (n - 1) * block == n * block - block;
    if n <= 0 { MulSigns(n, block); }
    if n > bytes { MulAtLeast(n - 1, block); }
  }

  lemma MulSigns(n: int, block: nat)
    requires n <= 0
    ensures n * block <= 0
  {
  }

  lemma MulAtLeast(n: nat, block: nat)
    requires block >= 1
    ensures n * block >= n
  {
  }

  /** fsUsageMeasured. */
  function Measured(u: Usage, total: u32, used: u32): Usage {
    u.(totalBytes := total, usedBytes := used, live := true)
  }

  /** fsUsageResize: a file went from a size to another. */
  function Resize(u: Usage, before: u32, after: u32): Usage {
    if !u.live then u
    else
      var a, b := Blocks(u, before), Blocks(u, after);
      if b >= a then
        var n := u.usedBytes + (b - a) * u.blockBytes;
        u.(usedBytes := if n > u.totalBytes then u.totalBytes else MulNat(b - a, u.blockBytes); n)
      else
        var sub := (a - b) * u.blockBytes;
        u.(usedBytes := if sub > u.usedBytes then 0 else MulNat(a - b, u.blockBytes); u.usedBytes - sub)
  }

  lemma MulNat(n: nat, m: nat)
    ensures n * m >= 0
  {
  }

  // ---- runs --------------------------------------------------------------

  /** The sizes of the data files; a removed one has size 0. */
  datatype State = State(u: Usage, sizes: seq<u32>)

  datatype Event = Create | SetSize(file: nat, bytes: u32)  // a write, or 0: a removal

  predicate EventOk(s: State, e: Event) { e.SetSize? ==> e.file < |s.sizes| }

  function Step(s: State, e: Event): State
    requires EventOk(s, e)
  {
    match e
    case Create => s.(sizes := s.sizes + [0])
    case SetSize(i, bytes) => State(Resize(s.u, s.sizes[i], bytes), s.sizes[i := bytes])
  }

  predicate RunOk(s: State, es: seq<Event>)
    decreases |es|, 0
  {
    es == [] || (RunOk(s, es[..|es| - 1]) && EventOk(After(s, es[..|es| - 1]), es[|es| - 1]))
  }

  function After(s: State, es: seq<Event>): State
    requires RunOk(s, es)
    decreases |es|, 1
  {
    if es == [] then s else Step(After(s, es[..|es| - 1]), es[|es| - 1])
  }

  function TotalBlocks(u: Usage, sizes: seq<u32>): nat {
    if sizes == [] then 0 else TotalBlocks(u, sizes[..|sizes| - 1]) + Blocks(u, sizes[|sizes| - 1])
  }

  /** What a walk would say: what it said at boot, and the blocks gained. */
  function Walk(u0: Usage, used0: int, base: nat, sizes: seq<u32>): int {
    used0 + u0.blockBytes * (TotalBlocks(u0, sizes) - base)
  }

  predicate SameGeometry(u: Usage, v: Usage) {
    u.blockBytes == v.blockBytes && u.inlineMax == v.inlineMax && u.totalBytes == v.totalBytes && u.live && v.live
  }

  lemma {:induction false} TotalPut(u: Usage, sizes: seq<u32>, i: nat, bytes: u32)
    requires i < |sizes|
    ensures TotalBlocks(u, sizes[i := bytes]) == TotalBlocks(u, sizes) - Blocks(u, sizes[i]) + Blocks(u, bytes)
    decreases |sizes|
  {
    hide Blocks;
    var n := |sizes| - 1;
    if i == n {
      assert sizes[i := bytes][..n] == sizes[..n];
    } else {
      TotalPut(u, sizes[..n], i, bytes);
      assert sizes[i := bytes][..n] == sizes[..n][i := bytes];
    }
  }

  lemma MulDiff(k: int, a: int, b: int, base: int)
    ensures k * (b - base) == k * (a - base) + k * (b - a)
    ensures k * (b - a) == (b - a) * k && (a - b) * k == -(k * (b - a))
  {
  }

  /** One resize takes an exact count to min(the new walk, the total). */
  lemma ResizeExact(s: State, u0: Usage, used0: int, base: nat, i: nat, bytes: u32)
    requires i < |s.sizes| && SameGeometry(u0, s.u) && s.u.usedBytes == Walk(u0, used0, base, s.sizes)
    requires used0 >= u0.blockBytes * base && s.u.usedBytes <= s.u.totalBytes
    ensures var r := Step(s, SetSize(i, bytes));
            SameGeometry(u0, r.u) && r.u.usedBytes == Min(Walk(u0, used0, base, r.sizes), u0.totalBytes)
  {
    hide Blocks, Resize, TotalBlocks;
    var k := u0.blockBytes;
    TotalPut(u0, s.sizes, i, bytes);
    BlocksSame(u0, s.u, s.sizes[i]);
    BlocksSame(u0, s.u, bytes);
    var a: int, b: int := TotalBlocks(u0, s.sizes), TotalBlocks(u0, s.sizes[i := bytes]);
    MulDiff(k, a, b, base);
    MulDiff(k, 0, b, base);
    MulDiff(k, 0, b, 0);
    MulMono(k, 0, b);
    ResizeValue(s.u, s.sizes[i], bytes);
  }

  /** A resize adds the blocks gained, within the partition. */
  lemma ResizeValue(u: Usage, before: u32, after: u32)
    requires u.live && u.usedBytes <= u.totalBytes
    ensures var p: int, q: int := Blocks(u, before), Blocks(u, after);
            var n := u.usedBytes + u.blockBytes * (q - p);
            && SameGeometry(u, Resize(u, before, after))
            && Resize(u, before, after).usedBytes == if n < 0 then 0 else Min(n, u.totalBytes)
  {
    hide Blocks;
    var p: int, q: int := Blocks(u, before), Blocks(u, after);
    MulDiff(u.blockBytes, p, q, 0);
    if q < p { MulMono(u.blockBytes, q - p, 0); } else { MulMono(u.blockBytes, 0, q - p); }
  }

  lemma BlocksSame(u: Usage, v: Usage, bytes: u32)
    requires SameGeometry(u, v)
    ensures Blocks(u, bytes) == Blocks(v, bytes)
  {
  }

  /** The walk never reports more than the partition holds, up to here. */
  ghost predicate Fits(s: State, es: seq<Event>)
    requires RunOk(s, es)
    decreases |es|
  {
    && Walk(s.u, s.u.usedBytes, TotalBlocks(s.u, s.sizes), After(s, es).sizes) <= s.u.totalBytes
    && (es == [] || Fits(s, es[..|es| - 1]))
  }

  /** The tracked count is what a walk would report, up to here. */
  ghost predicate Agrees(s: State, es: seq<Event>)
    requires RunOk(s, es)
    decreases |es|
  {
    && After(s, es).u.usedBytes == Walk(s.u, s.u.usedBytes, TotalBlocks(s.u, s.sizes), After(s, es).sizes)
    && (es == [] || Agrees(s, es[..|es| - 1]))
  }

  lemma {:induction false} CreateKeepsTotal(u: Usage, sizes: seq<u32>)
    ensures TotalBlocks(u, sizes + [0]) == TotalBlocks(u, sizes)
  {
    assert (sizes + [0])[..|sizes|] == sizes;
  }

  /** From a measurement on, whatever is created, written in whatever pieces,
      and removed: the tracked count agrees with the walk it replaces at every
      step exactly when the walk never passes the partition. */
  lemma {:induction false} TracksTheWalk(s: State, es: seq<Event>)
    requires s.u.live && s.u.blockBytes * TotalBlocks(s.u, s.sizes) <= s.u.usedBytes <= s.u.totalBytes && RunOk(s, es)
    ensures Agrees(s, es) <==> Fits(s, es)
    ensures SameGeometry(s.u, After(s, es).u) && After(s, es).u.usedBytes <= s.u.totalBytes
    decreases |es|
  {
    hide Blocks, Resize;
    var base := TotalBlocks(s.u, s.sizes);
    MulDiff(s.u.blockBytes, base, base, base);
    if es != [] {
      var es', e := es[..|es| - 1], es[|es| - 1];
      TracksTheWalk(s, es');
      var m := After(s, es');
      match e
      case Create => CreateKeepsTotal(s.u, m.sizes);
      case SetSize(i, bytes) =>
        ResizeValue(m.u, m.sizes[i], bytes);
        if Agrees(s, es') { ResizeExact(m, s.u, s.u.usedBytes, base, i, bytes); }
    }
  }

  // ---- in place ----------------------------------------------------------

  class Tracker {
    var blockBytes: u32
    var inlineMax: u32
    var totalBytes: u32
    var usedBytes: u32
    var live: bool

    function Value(): Usage
      reads this
    {
      Usage(blockBytes, inlineMax, totalBytes, usedBytes, live)
    }

    method SetMeasured(total: u32, used: u32)
      modifies this
      ensures Value() == Measured(old(Value()), total, used)
    {
      totalBytes, usedBytes, live := total, used, true;
    }

    method DataBlocks(bytes: u32) returns (n: u32)
      ensures n == Blocks(Value(), bytes)
    {
      if bytes <= inlineMax || blockBytes == 0 { return 0; }
      BlocksBound(bytes, blockBytes);
      n := (bytes + blockBytes - 1) / blockBytes;
    }

    method ResizeFile(before: u32, after: u32)
      modifies this
      ensures Value() == Resize(old(Value()), before, after)
    {
      hide Blocks;
      if !live { return; }
      var a := DataBlocks(before);
      var b := DataBlocks(after);
      if b >= a {
        var n := usedBytes + (b - a) * blockBytes;
        MulNat(b - a, blockBytes);
        usedBytes := if n > totalBytes then totalBytes else n;
      } else {
        var sub := (a - b) * blockBytes;
        MulNat(a - b, blockBytes);
        usedBytes := if sub > usedBytes then 0 else usedBytes - sub;
      }
    }
  }
}
