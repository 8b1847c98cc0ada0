/** Numbers as printf writes them. */
module Decimals {
  predicate IsDigit(c: char) { '0' <= c <= '9' }

  predicate AllDigits(s: string) { forall i :: 0 <= i < |s| ==> IsDigit(s[i]) }

  function DigitValue(c: char): nat
    requires IsDigit(c)
  {
    c as int - '0' as int
  }

  function ValueOf(ds: string): nat
    requires AllDigits(ds)
  {
    if ds == "" then 0 else 10 * ValueOf(ds[..|ds| - 1]) + DigitValue(ds[|ds| - 1])
  }

  function Digit(d: nat): (c: char)
    requires d < 10
    ensures IsDigit(c) && DigitValue(c) == d
  {
    ('0' as int + d) as char
  }

  /** The digits that %u and %lu print. */
  function Decimal(n: nat): (ds: string)
    ensures AllDigits(ds) && ds != ""
  {
    if n < 10 then [Digit(n)] else Decimal(n / 10) + [Digit(n % 10)]
  }

  lemma {:induction false} DecimalValue(n: nat)
    ensures ValueOf(Decimal(n)) == n && (Decimal(n)[0] == '0' ==> n == 0 && |Decimal(n)| == 1)
  {
    var ds := Decimal(n);
    if n < 10 {
      assert ds[..0] == "" && ValueOf("") == 0;
    } else {
      DecimalValue(n / 10);
      assert ds[..|ds| - 1] == Decimal(n / 10);
    }
  }

  lemma {:induction false} DecimalLength(n: nat, k: nat)
    requires n < Ten(k) && k > 0
    ensures |Decimal(n)| <= k
  {
    if n >= 10 { DecimalLength(n / 10, k - 1); }
  }

  function Ten(k: nat): (t: nat)
    ensures t >= 1
  {
    if k == 0 then 1 else 10 * Ten(k - 1)
  }

  /** One upper-case hexadecimal digit. */
  function HexDigit(d: nat): char
    requires d < 16
  {
    if d < 10 then Digit(d) else ('A' as int + d - 10) as char
  }

  /** The digits that %X prints. */
  function Hex(n: nat): (ds: string)
    ensures ds != ""
  {
    if n < 16 then [HexDigit(n)] else Hex(n / 16) + [HexDigit(n % 16)]
  }

  /** %0kX: at least k digits. */
  function HexPadded(n: nat, k: nat): (ds: string)
    ensures |ds| >= k
  {
    PadTo(Hex(n), k)
  }

  function PadTo(ds: string, k: nat): (r: string)
    ensures |r| == if |ds| < k then k else |ds|
    decreases k - |ds|
  {
    if |ds| >= k then ds else PadTo("0" + ds, k)
  }
}
