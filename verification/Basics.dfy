/** Fixed-width integers, and facts about arithmetic and sequences used throughout. */
module Basics {
  type Byte = x: int | 0 <= x < 0x100
  type U16 = x: int | 0 <= x < 0x1_0000
  type U32 = x: int | 0 <= x < 0x1_0000_0000

  function Min(a: int, b: int): int { if a < b then a else b }

  function Max(a: int, b: int): int { if a < b then b else a }

  function Pow2(i: nat): nat { if i == 0 then 1 else 2 * Pow2(i - 1) }

  lemma MulAtLeast(a: nat, b: nat, c: nat)
    requires b <= c
    ensures a * b <= a * c
  {
  }

  /** Quotient and remainder are determined by the division equation. */
  lemma DivUnique(x: int, k: int, q: int, r: int)
    requires x == q * k + r && 0 <= r < k
    ensures x / k == q && x % k == r
  {
    var q', r' := x / k, x % k;
    assert (q' - q) * k == r - r';
    if q' > q { MulAtLeast(k, 1, q' - q); }
    if q' < q { MulAtLeast(k, 1, q - q'); }
  }

  /** Reducing a summand first does not change the remainder. */
  lemma AddMod(x: int, m: int, k: int)
    requires k > 0
    ensures (x % k + m) % k == (x + m) % k
  {
    var a := x % k + m;
    assert x + m == (x / k + a / k) * k + a % k;
    DivUnique(x + m, k, x / k + a / k, a % k);
  }

  lemma Regroup<T>(a: seq<T>, b: seq<T>, c: seq<T>)
    ensures a + b + c == a + (b + c)
  {
  }
}
