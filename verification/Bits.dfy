// Powers of two, bitwise masking and shifting on unsigned machine words seen as naturals.
module Bits {

  function Pow2(k: nat): (p: nat)
    ensures 1 <= p
  {
    if k == 0 then 1 else 2 * Pow2(k - 1)
  }

  // The C operator `a & b` on unsigned words, bit by bit.
  function And(a: nat, b: nat): nat
    decreases a
  {
    if a == 0 || b == 0 then 0 else 2 * And(a / 2, b / 2) + (a % 2) * (b % 2)
  }

  lemma {:induction false} Pow2Monotone(j: nat, k: nat)
    requires j < k
    ensures 2 * Pow2(j) <= Pow2(k)
    decreases k
  {
    if j < k - 1 {
      Pow2Monotone(j, k - 1);
    }
  }

  // Masking with 2^k - 1 keeps the remainder modulo 2^k.
  lemma {:induction false} MaskIsRemainder(h: nat, k: nat)
    ensures And(h, Pow2(k) - 1) == h % Pow2(k)
    decreases k
  {
    if h == 0 || k == 0 {
    } else {
      MaskIsRemainder(h / 2, k - 1);
      var p := Pow2(k - 1);
      assert (Pow2(k) - 1) / 2 == p - 1 && (Pow2(k) - 1) % 2 == 1;
      HalvedRemainder(h, p);
    }
  }

  lemma HalvedRemainder(h: nat, p: nat)
    requires 1 <= p
    ensures h % (2 * p) == 2 * (h / 2 % p) + h % 2
  {
    var q, r := h / 2 / p, h / 2 % p;
    assert h / 2 == p * q + r;
    assert h == 2 * p * q + (2 * r + h % 2);
    RemainderUnique(h, 2 * p, q, 2 * r + h % 2);
  }

  lemma RemainderUnique(h: int, d: nat, q: int, r: int)
    requires 0 <= r < d
    requires h == d * q + r
    ensures h / d == q && h % d == r
  {
    var q', r' := h / d, h % d;
    assert d * q' + r' == d * q + r;
    SmallMultiple(d, q - q', r' - r);
  }

  lemma SmallMultiple(d: int, k: int, e: int)
    requires -d < e < d
    requires d * k == e
    ensures k == 0
  {
    if 1 <= k {
      MulMonotone(d, 1, k);
    } else if k <= -1 {
      MulMonotone(d, k, -1);
    }
  }

  lemma MulMonotone(d: int, j: int, k: int)
    requires 0 <= d && j <= k
    ensures d * j <= d * k
  {
    assert 0 <= d * (k - j);
  }
}
