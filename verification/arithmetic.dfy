/** Products, quotients and powers of two. */
module Arithmetic {

  lemma Scale(i: int, j: int, m: int)
    requires i < j && m >= 1
    ensures i * m + m <= j * m
  {
    assert (i + 1) * m <= j * m;
  }

  lemma IndexInverse(i: nat, r: int, m: int)
    requires 0 <= r < m
    ensures (i * m + r) / m == i
  {
    var x := i * m + r;
    var q := x / m;
    assert x == q * m + x % m;
    if q > i {
      Scale(i, q, m);
    } else if q < i {
      Scale(q, i, m);
    }
  }

  function Pow2(k: nat): nat {
    if k == 0 then 1 else 2 * Pow2(k - 1)
  }

  lemma {:induction false} Positive(k: nat)
    ensures Pow2(k) >= 1
  {
    if k > 0 {
      Positive(k - 1);
    }
  }

  lemma {:induction false} Pow2Monotone(j: nat, k: nat)
    requires j <= k
    ensures Pow2(j) <= Pow2(k)
    decreases k - j
  {
    if j < k {
      Pow2Monotone(j + 1, k);
    }
  }
}
