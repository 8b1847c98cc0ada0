/** Exclusive time per filestore sub-stage: the profiler of fsprof.h against
    the time its innermost tracked stage was open. */
module FsProf {
  import opened Words

  const SUBS := 7
  const DEPTH := 8

  /** struct FsProf. */
  datatype Prof = Prof(acc: seq<u32>, stack: seq<u8>, t0: seq<u32>, child: seq<u32>, depth: u8, active: bool,
                       walks: u16)

  predicate Shaped(p: Prof) {
    |p.acc| == SUBS && |p.stack| == |p.t0| == |p.child| == DEPTH && forall d :: 0 <= d < DEPTH ==> p.stack[d] < SUBS
  }

  /** fsProfBeginPass. */
  function BeginPass(p: Prof): Prof
    requires Shaped(p)
  {
    p.(acc := seq(SUBS, _ => 0), depth := 0, walks := 0, active := true)
  }

  /** fsProfEnter: frames deeper than the arrays are only counted. */
  function Enter(p: Prof, sub: u8, now: u32): Prof
    requires Shaped(p)
  {
    if !p.active || p.depth >= DEPTH then
      if p.active then p.(depth := (p.depth + 1) % 0x100) else p
    else
      p.(stack := p.stack[p.depth := sub], t0 := p.t0[p.depth := now], child := p.child[p.depth := 0],
         depth := p.depth + 1)
  }

  /** fsProfExit. */
  function Exit(p: Prof, now: u32): Prof
    requires Shaped(p)
  {
    if !p.active || p.depth == 0 then p
    else
      var d := p.depth - 1;
      if d >= DEPTH then p.(depth := d)
      else
        var elapsed := Wrap(now - p.t0[d]);
        var self := if elapsed > p.child[d] then elapsed - p.child[d] else 0;
        var sub := p.stack[d];
        p.(depth := d,
           acc := p.acc[sub := Wrap(p.acc[sub] + self)],
           child := if d > 0 then p.child[d - 1 := Wrap(p.child[d - 1] + elapsed)] else p.child)
  }

  // ---- what exclusive time means -----------------------------------------

  datatype Frame = Frame(sub: u8, start: nat, child: nat)

  /** The pass on a clock that never wraps: the tracked frames, how many deeper
      ones, the times already booked, and, per stage, the time during which
      its frame was the innermost tracked one. idle is the time with none. */
  datatype Pass = Pass(begin: nat, now: nat, frames: seq<Frame>, deep: nat, booked: seq<nat>,
                       charged: seq<nat>, idle: nat, closed: nat)

  predicate Fits(g: Pass) {
    && |g.booked| == |g.charged| == SUBS && |g.frames| <= DEPTH && g.begin <= g.now
    && (forall d :: 0 <= d < |g.frames| ==> g.frames[d].sub < SUBS)
    && (g.deep > 0 ==> |g.frames| == DEPTH)
  }

  function Started(at: nat): Pass { Pass(at, at, [], 0, seq(SUBS, _ => 0), seq(SUBS, _ => 0), 0, 0) }

  /** The clock moves on: the innermost tracked stage pays. */
  function Tick(g: Pass, at: nat): Pass
    requires Fits(g) && g.now <= at
  {
    var dt := at - g.now;
    if g.frames == [] then g.(now := at, idle := g.idle + dt)
    else
      var sub := g.frames[|g.frames| - 1].sub;
      g.(now := at, charged := g.charged[sub := g.charged[sub] + dt])
  }

  function Push(g: Pass, sub: u8): Pass {
    if |g.frames| < DEPTH then g.(frames := g.frames + [Frame(sub, g.now, 0)]) else g.(deep := g.deep + 1)
  }

  /** A frame closes: its own time is booked, all of it goes to its parent's
      nested time or, at the top, to the time of closed top-level stages. */
  function Pop(g: Pass): Pass
    requires Fits(g)
  {
    if g.deep > 0 then g.(deep := g.deep - 1)
    else if g.frames == [] then g
    else
      var n := |g.frames| - 1;
      var f := g.frames[n];
      var elapsed := if g.now >= f.start then g.now - f.start else 0;
      var self := if elapsed > f.child then elapsed - f.child else 0;
      var rest := g.frames[..n];
      g.(frames := if n > 0 then rest[n - 1 := rest[n - 1].(child := rest[n - 1].child + elapsed)] else rest,
         booked := g.booked[f.sub := g.booked[f.sub] + self],
         closed := if n > 0 then g.closed else g.closed + elapsed)
  }

  datatype Event = EnterAt(sub: u8, at: nat) | ExitAt(at: nat)

  predicate EventOk(g: Pass, e: Event) {
    g.now <= e.at && (e.EnterAt? ==> e.sub < SUBS)
  }

  function Next(g: Pass, e: Event): Pass
    requires Fits(g) && EventOk(g, e)
  {
    match e
    case EnterAt(sub, at) => Push(Tick(g, at), sub)
    case ExitAt(at) => Pop(Tick(g, at))
  }

  /** The same event for the profiler, whose clock is the low 32 bits. */
  function Do(p: Prof, e: Event): Prof
    requires Shaped(p)
  {
    match e
    case EnterAt(sub, at) => Enter(p, sub, Wrap(at))
    case ExitAt(at) => Exit(p, Wrap(at))
  }

  // ---- invariant of the pass ---------------------------------------------

  /** Where the frame at d stopped running: at its nested frame, or now. */
  function Until(g: Pass, d: nat): nat
    requires d < |g.frames|
  {
    if d + 1 < |g.frames| then g.frames[d + 1].start else g.now
  }

  /** Exclusive time so far of the open frames of a stage, d of them on. */
  function OpenTime(g: Pass, sub: u8, d: nat): int
    requires d <= |g.frames|
    decreases |g.frames| - d
  {
    if d == |g.frames| then 0
    else
      (if g.frames[d].sub == sub then Until(g, d) - g.frames[d].start - g.frames[d].child else 0)
      + OpenTime(g, sub, d + 1)
  }

  function Sum(s: seq<nat>): nat {
    if s == [] then 0 else Sum(s[..|s| - 1]) + s[|s| - 1]
  }

  /** Nested time of the open frames. */
  function Nested(fs: seq<Frame>): nat {
    if fs == [] then 0 else Nested(fs[..|fs| - 1]) + fs[|fs| - 1].child
  }

  predicate Ordered(g: Pass) {
    forall d :: 0 <= d < |g.frames| ==>
      g.begin <= g.frames[d].start && g.frames[d].start + g.frames[d].child <= Until(g, d) <= g.now
  }

  ghost predicate Inv(g: Pass) {
    && Fits(g) && Ordered(g)
    && (forall sub: u8 :: sub < SUBS ==> g.charged[sub] == g.booked[sub] + OpenTime(g, sub, 0))
    && Sum(g.booked) == g.closed + Nested(g.frames)
    && Sum(g.charged) + g.idle == g.now - g.begin
  }

  lemma {:induction false} SumPut(s: seq<nat>, i: nat, v: nat)
    requires i < |s|
    ensures Sum(s[i := v]) == Sum(s) - s[i] + v && s[i] <= Sum(s)
    decreases |s|
  {
    var n := |s| - 1;
    if i == n {
      assert s[i := v][..n] == s[..n];
    } else {
      SumPut(s[..n], i, v);
      assert s[i := v][..n] == s[..n][i := v];
    }
  }

  /** The open time of the frames below d does not depend on those above. */
  lemma {:induction false} OpenShift(g: Pass, g': Pass, sub: u8, d: nat, gain: int)
    requires d < |g.frames| == |g'.frames| && g'.now >= g.now
    requires forall k :: d <= k < |g.frames| ==> g'.frames[k] == g.frames[k]
    requires gain == if g.frames[|g.frames| - 1].sub == sub then g'.now - g.now else 0
    ensures OpenTime(g', sub, d) == OpenTime(g, sub, d) + gain
    decreases |g.frames| - d
  {
    if d + 1 < |g.frames| {
      OpenShift(g, g', sub, d + 1, gain);
    } else {
      assert OpenTime(g, sub, d + 1) == OpenTime(g', sub, d + 1) == 0;
    }
  }

  lemma TickKeeps(g: Pass, at: nat)
    requires Inv(g) && g.now <= at
    ensures Inv(Tick(g, at))
  {
    hide Sum, Nested, OpenTime;
    var g' := Tick(g, at);
    if g.frames != [] {
      var top := g.frames[|g.frames| - 1].sub;
      SumPut(g.charged, top, g.charged[top] + (at - g.now));
      forall sub: u8 | sub < SUBS ensures g'.charged[sub] == g'.booked[sub] + OpenTime(g', sub, 0) {
        OpenShift(g, g', sub, 0, if top == sub then at - g.now else 0);
      }
    } else {
      forall sub: u8 | sub < SUBS ensures OpenTime(g', sub, 0) == OpenTime(g, sub, 0) {
        NoneOpen(g, sub);
        NoneOpen(g', sub);
      }
    }
  }

  lemma NoneOpen(g: Pass, sub: u8)
    requires g.frames == []
    ensures OpenTime(g, sub, 0) == 0
  {
  }

  lemma {:induction false} OpenPush(g: Pass, f: Frame, sub: u8, d: nat)
    requires d <= |g.frames| && f.start == g.now && f.child == 0
    ensures OpenTime(g.(frames := g.frames + [f]), sub, d) == OpenTime(g, sub, d)
    decreases |g.frames| - d
  {
    var g' := g.(frames := g.frames + [f]);
    if d < |g.frames| {
      OpenPush(g, f, sub, d + 1);
      assert Until(g', d) == Until(g, d);
    } else {
      assert OpenTime(g', sub, d + 1) == 0;
    }
  }

  lemma PushKeeps(g: Pass, sub: u8)
    requires Inv(g) && sub < SUBS
    ensures Inv(Push(g, sub))
  {
    hide Sum, OpenTime;
    if |g.frames| < DEPTH {
      var f := Frame(sub, g.now, 0);
      assert (g.frames + [f])[..|g.frames|] == g.frames;
      forall s: u8 | s < SUBS ensures OpenTime(Push(g, sub), s, 0) == OpenTime(g, s, 0) { OpenPush(g, f, s, 0); }
    } else {
      forall s: u8 | s < SUBS ensures OpenTime(Push(g, sub), s, 0) == OpenTime(g, s, 0) {
        OpenSame(g, Push(g, sub), s, 0);
      }
    }
  }

  lemma {:induction false} OpenSame(g: Pass, g': Pass, sub: u8, d: nat)
    requires d <= |g.frames| && g'.frames == g.frames && g'.now == g.now
    ensures OpenTime(g', sub, d) == OpenTime(g, sub, d)
    decreases |g.frames| - d
  {
    if d < |g.frames| { OpenSame(g, g', sub, d + 1); }
  }

  /** Popping leaves the own time of the frames below as it was. */
  lemma OwnPop(g: Pass, d: nat)
    requires Fits(g) && Ordered(g) && g.deep == 0 && d < |g.frames| - 1
    ensures var (p, f) := (Pop(g), g.frames[d]);
            && |p.frames| == |g.frames| - 1 && p.frames[d].sub == f.sub
            && Until(p, d) - p.frames[d].start - p.frames[d].child == Until(g, d) - f.start - f.child
  {
    assert g.frames[|g.frames| - 1].start <= g.now;
  }

  lemma PopLength(g: Pass)
    requires Fits(g) && g.deep == 0 && g.frames != []
    ensures |Pop(g).frames| == |g.frames| - 1
  {
  }

  /** Popping takes the last frame's own time out of the open time. */
  lemma {:induction false} OpenPop(g: Pass, sub: u8, d: nat)
    requires Fits(g) && Ordered(g) && g.deep == 0 && d <= |g.frames| - 1
    ensures |Pop(g).frames| == |g.frames| - 1
    ensures var f := g.frames[|g.frames| - 1];
            OpenTime(g, sub, d) == OpenTime(Pop(g), sub, d) + if f.sub == sub then g.now - f.start - f.child else 0
    decreases |g.frames| - d
  {
    hide Pop, Ordered;
    var n := |g.frames| - 1;
    PopLength(g);
    if d == n {
      assert OpenTime(g, sub, n + 1) == 0;
    } else {
      OwnPop(g, d);
      OpenPop(g, sub, d + 1);
    }
  }

  lemma NestedPop(g: Pass)
    requires Fits(g) && Ordered(g) && g.deep == 0 && g.frames != []
    ensures var n := |g.frames| - 1;
            var f := g.frames[n];
            Nested(Pop(g).frames) == Nested(g.frames) - f.child + if n > 0 then g.now - f.start else 0
  {
    var n := |g.frames| - 1;
    var rest := g.frames[..n];
    if n > 0 {
      var out := Pop(g).frames;
      assert out[..n - 1] == rest[..n - 1];
    }
  }

  lemma PopOrdered(g: Pass)
    requires Fits(g) && Ordered(g)
    ensures Fits(Pop(g)) && Ordered(Pop(g))
  {
    var g' := Pop(g);
    if g.deep == 0 && g.frames != [] {
      var n := |g.frames| - 1;
      assert g.frames[n].start <= Until(g, n);
      forall d | 0 <= d < n
        ensures g'.frames[d].start + g'.frames[d].child <= Until(g', d) <= g'.now && g'.begin <= g'.frames[d].start
      {
        assert g.frames[d].start + g.frames[d].child <= Until(g, d);
      }
    }
  }

  lemma PopKeeps(g: Pass)
    requires Inv(g)
    ensures Inv(Pop(g))
  {
    hide Sum, OpenTime, Nested, Ordered;
    PopOrdered(g);
    if g.deep == 0 && g.frames != [] {
      var f := g.frames[|g.frames| - 1];
      LastFrame(g);
      SumPut(g.booked, f.sub, g.booked[f.sub] + (g.now - f.start - f.child));
      NestedPop(g);
      forall s: u8 | s < SUBS ensures Pop(g).charged[s] == Pop(g).booked[s] + OpenTime(Pop(g), s, 0) {
        OpenPop(g, s, 0);
      }
    } else {
      forall s: u8 | s < SUBS ensures OpenTime(Pop(g), s, 0) == OpenTime(g, s, 0) { OpenSame(g, Pop(g), s, 0); }
    }
  }

  lemma LastFrame(g: Pass)
    requires Fits(g) && Ordered(g) && g.frames != []
    ensures var f := g.frames[|g.frames| - 1]; g.begin <= f.start && f.start + f.child <= g.now
  {
    assert Until(g, |g.frames| - 1) == g.now;
  }

  // ---- the profiler keeps the books --------------------------------------

  /** The profiler's arrays hold the pass, in 32 bits. */
  predicate Keeps(p: Prof, g: Pass) {
    && Shaped(p) && p.active && |g.booked| == SUBS && |g.frames| <= DEPTH
    && p.depth == |g.frames| + g.deep
    && (forall s :: 0 <= s < SUBS ==> p.acc[s] == g.booked[s])
    && (forall d :: 0 <= d < |g.frames| ==>
          p.stack[d] == g.frames[d].sub && p.t0[d] == Wrap(g.frames[d].start) && p.child[d] == g.frames[d].child)
  }

  lemma {:induction false} SumBounds(s: seq<nat>, i: nat)
    requires i < |s|
    ensures s[i] <= Sum(s)
  {
    SumPut(s, i, 0);
  }

  lemma {:induction false} OpenNotNegative(g: Pass, sub: u8, d: nat)
    requires Ordered(g) && d <= |g.frames|
    ensures OpenTime(g, sub, d) >= 0
    decreases |g.frames| - d
  {
    if d < |g.frames| { OpenNotNegative(g, sub, d + 1); }
  }

  /** Nothing booked exceeds the length of the pass. */
  lemma BookedFits(g: Pass, sub: u8)
    requires Inv(g) && sub < SUBS
    ensures g.booked[sub] <= g.now - g.begin
  {
    hide Sum, Nested, OpenTime, Ordered;
    SumBounds(g.charged, sub);
    OpenNotNegative(g, sub, 0);
  }

  lemma EnterKeeps(p: Prof, g: Pass, sub: u8)
    requires Inv(g) && Keeps(p, g) && sub < SUBS && g.deep + DEPTH < 0xFF
    ensures Keeps(Enter(p, sub, Wrap(g.now)), Push(g, sub))
  {
    hide Wrap, Sum, Nested, OpenTime;
  }

  lemma ExitKeeps(p: Prof, g: Pass)
    requires Inv(g) && Keeps(p, g) && g.now - g.begin < U32
    ensures Keeps(Exit(p, Wrap(g.now)), Pop(g))
  {
    hide Wrap, Sum, Nested, OpenTime, Ordered;
    if g.frames != [] && g.deep == 0 {
      var n := |g.frames| - 1;
      var f := g.frames[n];
      LastFrame(g);
      WrapGap(g.now, f.start);
      PopKeeps(g);
      BookedFits(Pop(g), f.sub);
      WrapFits(Pop(g).booked[f.sub]);
      if n > 0 { ChildFits(Pop(g), n - 1); }
    }
  }

  lemma ChildFits(g: Pass, d: nat)
    requires Inv(g) && d < |g.frames| && g.now - g.begin < U32
    ensures Wrap(g.frames[d].child) == g.frames[d].child
  {
    hide Sum, Nested, OpenTime;
  }

  // ---- whole passes ------------------------------------------------------

  predicate RunOk(at: nat, es: seq<Event>)
    ensures RunOk(at, es) ==> forall k :: 0 <= k < |es| && es[k].EnterAt? ==> es[k].sub < SUBS
    decreases |es|, 0
  {
    es == [] || (RunOk(at, es[..|es| - 1]) && Fits(After(at, es[..|es| - 1]))
                 && EventOk(After(at, es[..|es| - 1]), es[|es| - 1]))
  }

  function After(at: nat, es: seq<Event>): Pass
    requires RunOk(at, es)
    decreases |es|, 1
  {
    if es == [] then Started(at) else Next(After(at, es[..|es| - 1]), es[|es| - 1])
  }

  function Profiled(p: Prof, es: seq<Event>): (r: Prof)
    requires Shaped(p) && forall k :: 0 <= k < |es| && es[k].EnterAt? ==> es[k].sub < SUBS
    ensures Shaped(r)
  {
    if es == [] then BeginPass(p) else Do(Profiled(p, es[..|es| - 1]), es[|es| - 1])
  }

  /** The pass lasts less than 2^32 us and nests no deeper than the counter
      counts, up to every point. */
  predicate Countable(at: nat, es: seq<Event>)
    requires RunOk(at, es)
    decreases |es|
  {
    && |After(at, es).frames| + After(at, es).deep <= 0xFF
    && After(at, es).now - at < U32
    && (es == [] || Countable(at, es[..|es| - 1]))
  }

  lemma {:induction false} SumZero(n: nat)
    ensures Sum(seq(n, _ => 0)) == 0
  {
    if n > 0 {
      var e: nat := n - 1;
      SumZero(e);
      assert seq(n, _ => 0)[..e] == seq(e, _ => 0);
    }
  }

  lemma StartedInv(at: nat)
    ensures Inv(Started(at))
  {
    SumZero(SUBS);
    assert forall sub: u8 :: sub < SUBS ==> OpenTime(Started(at), sub, 0) == 0;
  }

  lemma NextKeeps(g: Pass, e: Event)
    requires Inv(g) && EventOk(g, e)
    ensures Inv(Next(g, e)) && Inv(Tick(g, e.at)) && Next(g, e).begin == g.begin
  {
    hide Sum, Nested, OpenTime, Ordered;
    TickKeeps(g, e.at);
    match e
    case EnterAt(sub, _) => PushKeeps(Tick(g, e.at), sub);
    case ExitAt(_) => PopKeeps(Tick(g, e.at));
  }

  lemma DoKeeps(p: Prof, g: Pass, e: Event)
    requires Inv(g) && Fits(g) && Keeps(p, g) && EventOk(g, e)
    requires e.at - g.begin < U32 && |Next(g, e).frames| + Next(g, e).deep <= 0xFF
    ensures Keeps(Do(p, e), Next(g, e))
  {
    hide Inv, Enter, Exit;
    NextKeeps(g, e);
    var t := Tick(g, e.at);
    assert Keeps(p, t);
    match e
    case EnterAt(sub, _) => EnterKeeps(p, t, sub);
    case ExitAt(_) => ExitKeeps(p, t);
  }

  lemma NextTime(g: Pass, e: Event)
    requires Fits(g) && EventOk(g, e)
    ensures Next(g, e).now == e.at
  {
  }

  lemma {:induction false} PassKeeps(p: Prof, at: nat, es: seq<Event>)
    requires Shaped(p) && RunOk(at, es) && Countable(at, es)
    ensures Inv(After(at, es)) && Keeps(Profiled(p, es), After(at, es)) && After(at, es).begin == at
    decreases |es|
  {
    hide Inv, Keeps, Do, Next, BeginPass, Shaped;
    if es == [] {
      StartedInv(at);
      StartedKeeps(p, at);
    } else {
      var es', e := es[..|es| - 1], es[|es| - 1];
      PassKeeps(p, at, es');
      NextTime(After(at, es'), e);
      NextKeeps(After(at, es'), e);
      DoKeeps(Profiled(p, es'), After(at, es'), e);
    }
  }

  lemma StartedKeeps(p: Prof, at: nat)
    requires Shaped(p)
    ensures Keeps(BeginPass(p), Started(at))
  {
  }

  /** Conservation, at every point of every pass: the booked times add up to
      the time of the closed top-level stages and the nested time of the open
      ones, whatever the nesting, deeper than the arrays included. */
  lemma TimeIsConserved(p: Prof, at: nat, es: seq<Event>)
    requires Shaped(p) && RunOk(at, es) && Countable(at, es)
    ensures var r, g := Profiled(p, es), After(at, es);
            && Sum(r.acc) == g.closed + Nested(g.frames)
            && (forall d :: 0 <= d < |g.frames| ==> r.child[d] == g.frames[d].child)
  {
    hide Sum, Nested, OpenTime, Ordered, After, Profiled, RunOk, Countable;
    PassKeeps(p, at, es);
    assert Profiled(p, es).acc == After(at, es).booked;
  }

  /** Exactness: once everything is closed, every stage's figure is the time
      during which it was the innermost tracked stage, and they add up to the
      elapsed time of the top-level stages. */
  lemma TimeIsExclusive(p: Prof, at: nat, es: seq<Event>)
    requires Shaped(p) && RunOk(at, es) && Countable(at, es) && Profiled(p, es).depth == 0
    ensures var r, g := Profiled(p, es), After(at, es);
            && r.acc == g.charged
            && Sum(r.acc) == g.closed == g.now - at - g.idle
  {
    hide Sum, Ordered, After, Profiled, RunOk, Countable;
    PassKeeps(p, at, es);
    var g := After(at, es);
    forall s: u8 | s < SUBS ensures g.charged[s] == g.booked[s] { NoneOpen(g, s); }
    assert Profiled(p, es).acc == g.booked == g.charged;
  }

  // ---- in place ----------------------------------------------------------

  /** The first stage with the most time. */
  predicate IsWorst(acc: seq<u32>, w: nat, n: nat)
    requires n <= |acc|
  {
    w < n && (forall i :: 0 <= i < n ==> acc[i] <= acc[w]) && forall i :: 0 <= i < w ==> acc[i] < acc[w]
  }

  class Profiler {
    const acc: array<u32>
    const stack: array<u8>
    const t0: array<u32>
    const child: array<u32>
    var depth: u8
    var active: bool
    var walks: u16

    ghost function Value(): Prof
      reads this, acc, stack, t0, child
    {
      Prof(acc[..], stack[..], t0[..], child[..], depth, active, walks)
    }

    ghost predicate Valid()
      reads this, acc, stack, t0, child
    {
      Shaped(Value()) && acc != t0 && acc != child && t0 != child
    }

    constructor ()
      ensures Valid() && !active && fresh(acc) && fresh(stack) && fresh(t0) && fresh(child)
    {
      acc := new u32[SUBS](_ => 0);
      stack := new u8[DEPTH](_ => 0);
      t0 := new u32[DEPTH](_ => 0);
      child := new u32[DEPTH](_ => 0);
      depth, active, walks := 0, false, 0;
    }

    method BeginThePass()
      requires Valid()
      modifies this, acc
      ensures Valid() && Value() == BeginPass(old(Value()))
    {
      for i := 0 to SUBS
        invariant Valid() && Value() == old(Value()).(acc := acc[..])
        invariant forall k :: 0 <= k < i ==> acc[k] == 0
      {
        acc[i] := 0;
      }
      depth, walks, active := 0, 0, true;
      assert acc[..] == seq(SUBS, _ => 0);
    }

    method EnterStage(sub: u8, nowUs: u32)
      requires Valid() && sub < SUBS
      modifies this`depth, stack, t0, child
      ensures Valid() && Value() == Enter(old(Value()), sub, nowUs)
    {
      if !active || depth >= DEPTH {
        if active { depth := (depth + 1) % 0x100; }
        return;
      }
      stack[depth] := sub;
      t0[depth] := nowUs;
      child[depth] := 0;
      depth := depth + 1;
    }

    method ExitStage(nowUs: u32)
      requires Valid()
      modifies this`depth, acc, child
      ensures Valid() && Value() == Exit(old(Value()), nowUs)
    {
      hide Wrap;
      if !active || depth == 0 { return; }
      depth := depth - 1;
      if depth >= DEPTH { return; }
      var d := depth;
      var elapsed := Wrap(nowUs - t0[d]);
      var self := if elapsed > child[d] then elapsed - child[d] else 0;
      var booked: int := acc[stack[d]];
      acc[stack[d]] := Wrap(booked + self);
      if d > 0 {
        var nested: int := child[d - 1];
        child[d - 1] := Wrap(nested + elapsed);
      }
    }

    /** fsProfEndPass. */
    method EndPass() returns (worst: u8, us: u32)
      requires Valid()
      modifies this`active
      ensures Valid() && Value() == old(Value()).(active := false)
      ensures IsWorst(acc[..], worst, SUBS) && us == acc[worst]
    {
      active := false;
      worst := 0;
      for i := 1 to SUBS
        invariant Valid() && IsWorst(acc[..], worst, i)
      {
        if acc[i] > acc[worst] { worst := i; }
      }
      us := acc[worst];
    }
  }
}
