/** Unsigned words as sets of bits: the operations on masks that the firmware builds from shifts and ORs. */
module BitMasks {
  import opened Arithmetic

  predicate Bit(m: nat, k: nat)
    decreases k
  {
    if k == 0 then m % 2 == 1 else Bit(m / 2, k - 1)
  }

  /** a | b */
  function Or(a: nat, b: nat): nat
    decreases a + b
  {
    if a == 0 then b else if b == 0 then a
    else 2 * Or(a / 2, b / 2) + if a % 2 == 1 || b % 2 == 1 then 1 else 0
  }

  /** m << n */
  function Shifted(m: nat, n: nat): nat
  {
    if n == 0 then m else 2 * Shifted(m, n - 1)
  }

  /** ((1 << count) - 1) << first */
  function Ones(first: nat, count: nat): nat { Shifted(Pow2(count) - 1, first) }

  lemma {:induction false} NoBits(k: nat)
    ensures !Bit(0, k)
  {
    if k > 0 { NoBits(k - 1); }
  }

  lemma {:induction false} BitOr(a: nat, b: nat, k: nat)
    ensures Bit(Or(a, b), k) <==> Bit(a, k) || Bit(b, k)
    decreases k
  {
    NoBits(k);
    if k > 0 && a > 0 && b > 0 { BitOr(a / 2, b / 2, k - 1); }
  }

  /** The mask has exactly the bits first .. first + count - 1. */
  lemma {:induction false} BitOnes(first: nat, count: nat, k: nat)
    ensures Bit(Ones(first, count), k) <==> first <= k < first + count
    decreases first + count
  {
    if first > 0 {
      if k > 0 { BitOnes(first - 1, count, k - 1); }
    } else if count == 0 {
      NoBits(k);
    } else if k > 0 {
      BitOnes(0, count - 1, k - 1);
    }
  }

  /** A word of n bits stays one. */
  lemma {:induction false} OrFits(a: nat, b: nat, n: nat)
    requires a < Pow2(n) && b < Pow2(n)
    ensures Or(a, b) < Pow2(n)
    decreases n
  {
    if n > 0 && a > 0 && b > 0 { OrFits(a / 2, b / 2, n - 1); }
  }

  lemma OnesFits(first: nat, count: nat, n: nat)
    requires first + count <= n
    ensures Ones(first, count) < Pow2(n)
  {
    ShiftFits(Pow2(count) - 1, count, first);
    Pow2Grows(first + count, n);
  }

  lemma {:induction false} ShiftFits(m: nat, a: nat, n: nat)
    requires m < Pow2(a)
    ensures Shifted(m, n) < Pow2(a + n)
  {
    if n > 0 { ShiftFits(m, a, n - 1); }
  }

  lemma {:induction false} Pow2Grows(a: nat, b: nat)
    requires a <= b
    ensures Pow2(a) <= Pow2(b)
  {
    if a < b { Pow2Grows(a, b - 1); }
  }
}
