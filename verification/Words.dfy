/** Machine words of the firmware's C++ as subset types of int, and the casts
    between them, with their wrap-around written out. */
module Words {
  const U32 := 0x1_0000_0000
  const I31 := 0x8000_0000

  type u8 = x: int | 0 <= x < 256
  type u16 = x: int | 0 <= x < 0x1_0000
  type u32 = x: int | 0 <= x < U32
  type i32 = x: int | -I31 <= x < I31

  /** Unsigned arithmetic: the value reduced into a uint32_t. */
  function Wrap(x: int): u32 {
    x % U32
  }

  /** The cast (int32_t) of a uint32_t. */
  function Signed(x: u32): i32 {
    if x < I31 then x else x - U32
  }

  function Max(a: int, b: int): int {
    if a < b then b else a
  }

  function Min(a: int, b: int): int {
    if a < b then a else b
  }

  lemma WrapFits(x: int)
    requires 0 <= x < U32
    ensures Wrap(x) == x
  {
  }

  lemma WrapAdd(t: int, d: int)
    ensures Wrap(Wrap(t) + d) == Wrap(t + d)
  {
  }

  lemma WrapDiff(a: int, b: int)
    ensures Wrap(Wrap(a) - Wrap(b)) == Wrap(a - b)
  {
    var q, r := a / U32, b / U32;
    assert Wrap(a) - Wrap(b) == a - b - (q - r) * U32;
  }

  /** A difference of wrapped values less than 2^32 apart is the difference. */
  lemma WrapGap(h: int, t: int)
    requires t <= h < t + U32
    ensures Wrap(Wrap(h) - Wrap(t)) == h - t
  {
    WrapDiff(h, t);
  }
}

/** Products, quotients and remainders of variables. */
module Arithmetic {
  lemma MulMono(k: int, a: int, b: int)
    requires k >= 0 && a <= b
    ensures k * a <= k * b
  {
  }

  /** A quotient and a remainder are what they add up to. */
  lemma DivMod(x: nat, d: nat, q: nat, r: nat)
    requires r < d && x == d * q + r
    ensures x / d == q && x % d == r
  {
    var p := x / d;
    assert x == d * p + x % d;
    assert d * (p + 1) == d * p + d && d * (q + 1) == d * q + d;
    if p < q { MulMono(d, p + 1, q); }
    if q < p { MulMono(d, q + 1, p); }
  }
}

/** Words as bytes, least significant first. */
module LittleEndian {
  import opened Words

  function Bytes16(v: u16): (b: seq<u8>)
    ensures |b| == 2 && Join16(b[0], b[1]) == v
  {
    [v % 0x100, v / 0x100]
  }

  function Join16(lo: u8, hi: u8): u16 { lo + 0x100 * hi }

  /** The four bytes that shifting a uint32_t right by 0, 8, 16, 24 leaves;
      each further shift by 8 divides by 256 once more. */
  function Bytes32(v: u32): (b: seq<u8>)
    ensures |b| == 4 && Join32(b[0], b[1], b[2], b[3]) == v
  {
    var v8 := v / 0x100;
    var v16 := v8 / 0x100;
    var v24 := v16 / 0x100;
    [v % 0x100, v8 % 0x100, v16 % 0x100, v24]
  }

  /** Four bytes shifted into place and or-ed; the shifted bytes do not
      overlap, so or is addition. */
  function Join32(b0: u8, b1: u8, b2: u8, b3: u8): u32 {
    b0 + 0x100 * (b1 + 0x100 * (b2 + 0x100 * b3))
  }

  /** Lowest byte first. */
  lemma JoinIs(b0: u8, b1: u8, b2: u8, b3: u8)
    ensures Join16(b0, b1) == b0 + 0x100 * b1
    ensures Join32(b0, b1, b2, b3) == b0 + 0x100 * b1 + 0x1_0000 * b2 + 0x100_0000 * b3
  {
  }

  lemma LowByte(b: u8, x: nat)
    ensures (b + 0x100 * x) % 0x100 == b && (b + 0x100 * x) / 0x100 == x
  {
  }

  lemma SplitJoin(b0: u8, b1: u8, b2: u8, b3: u8)
    ensures Bytes32(Join32(b0, b1, b2, b3)) == [b0, b1, b2, b3]
  {
    LowByte(b2, b3);
    LowByte(b1, b2 + 0x100 * b3);
    LowByte(b0, b1 + 0x100 * (b2 + 0x100 * b3));
  }
}

/** The usual optional value, usable with `:-`. */
module Options {
  datatype Option<+T> = None | Some(value: T) {
    predicate IsFailure() { None? }

    function PropagateFailure<U>(): Option<U>
      requires None?
    {
      None
    }

    function Extract(): T
      requires Some?
    {
      value
    }
  }
}
