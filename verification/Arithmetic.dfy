/** Word sizes, and the few facts of arithmetic that several parts of the firmware's model use. */
module Arithmetic {
  const TWO_16 := 0x1_0000
  const TWO_31 := 0x8000_0000
  const TWO_32 := 0x1_0000_0000
  const TWO_63 := 0x8000_0000_0000_0000

  type uint32 = x: int | 0 <= x < TWO_32

  function Abs(x: int): nat { if x < 0 then -x else x }

  function Min(a: int, b: int): int { if a < b then a else b }
  function Max(a: int, b: int): int { if a < b then b else a }

  function Pow2(n: nat): (p: nat)
    ensures 1 <= p
  {
    if n == 0 then 1 else 2 * Pow2(n - 1)
  }

  lemma NotNegative(a: nat, b: nat)
    ensures 0 <= a * b
  {}

  lemma MulMono(a: int, b: int, c: int)
    requires a <= b && 0 <= c
    ensures a * c <= b * c
  {}

  lemma QuotientIs(a: nat, c: nat, q: nat)
    requires 0 < c
    ensures a / c == q <==> q * c <= a < q * c + c
  {
    var r := a / c;
    assert r * c <= a < r * c + c;
    if r < q { MulMono(r + 1, q, c); }
    if q < r { MulMono(q + 1, r, c); }
  }

  lemma RemainderIs(a: nat, c: nat, q: nat, r: nat)
    requires r < c && a == q * c + r
    ensures a % c == r
  {
    QuotientIs(a, c, q);
    assert a == a / c * c + a % c;
  }
}
