/**
 Routing a request to the pool for its size: rounding up to a multiple of the
 machine word by bit masking, and the slot that the rounded size gets.
 Sizes are 64-bit, and the arithmetic wraps.
 */
module SizeClasses {
  import opened Basics
  import opened Arithmetic

  function Wrap(x: int): (r: nat)
    ensures r < SIZE_T
  {
    x % SIZE_T
  }

  /** Bitwise and. */
  function And(x: nat, y: nat): nat {
    if x == 0 || y == 0 then 0 else 2 * And(x / 2, y / 2) + (x % 2) * (y % 2)
  }

  /** Bitwise complement of a 64-bit value. */
  function Not(x: nat): nat
    requires x < SIZE_T
  {
    SIZE_T - 1 - x
  }

  function AlignUp(alignment: nat, size: nat): nat
    requires 1 <= alignment <= SIZE_T
  {
    And(Wrap(size + (alignment - 1)), Not(alignment - 1))
  }

  lemma SizeTIsPow2() returns (n: nat)
    ensures n == 64 && Pow2(n) == SIZE_T
  {
    n := 64;
    assert Pow2(8) == 0x100;
    assert Pow2(16) == 0x1_0000;
    assert Pow2(24) == 0x100_0000;
    assert Pow2(32) == 0x1_0000_0000;
    assert Pow2(40) == 0x100_0000_0000;
    assert Pow2(48) == 0x1_0000_0000_0000;
    assert Pow2(56) == 0x100_0000_0000_0000;
  }

  lemma AndByBit(x: nat, y: nat, y2: nat, bit: nat)
    requires y == 2 * y2 + bit && bit <= 1
    ensures And(x, y) == 2 * And(x / 2, y2) + (if bit == 1 then x % 2 else 0)
  {
    assert y / 2 == y2 && y % 2 == bit;
  }

  /** Masking with n ones over k zeros drops the remainder by 2^k. */
  lemma {:induction false} MaskDropsRemainder(x: nat, k: nat, n: nat)
    requires k <= n && x < Pow2(n)
    ensures 1 <= Pow2(k) <= Pow2(n)
    ensures And(x, Pow2(n) - Pow2(k)) == x - x % Pow2(k)
    decreases n
  {
    Positive(k);
    Pow2Monotone(k, n);
    if n == 0 {
    } else if k == 0 {
      MaskDropsRemainder(x / 2, 0, n - 1);
      AndByBit(x, Pow2(n) - 1, Pow2(n - 1) - 1, 1);
    } else {
      MaskDropsRemainder(x / 2, k - 1, n - 1);
      var m := Pow2(k - 1);
      AndByBit(x, Pow2(n) - Pow2(k), Pow2(n - 1) - m, 0);
      HalfRemainder(x, m);
    }
  }

  lemma HalfRemainder(x: nat, m: nat)
    requires m >= 1
    ensures 2 * (x / 2 - (x / 2) % m) == x - x % (2 * m)
  {
    var q, r := (x / 2) / m, (x / 2) % m;
    assert x / 2 == q * m + r;
    var rest := 2 * r + x % 2;
    assert x == q * (2 * m) + rest && 0 <= rest < 2 * m;
    UniqueRemainder(x, 2 * m, q, rest);
  }

  lemma UniqueRemainder(x: nat, m: nat, q: nat, r: nat)
    requires m >= 1 && x == q * m + r && r < m
    ensures x / m == q && x % m == r
  {
    IndexInverse(q, r, m);
    assert x == (x / m) * m + x % m;
  }

  // ---------------------------------------------------------------- rounding

  lemma Divided(x: nat, m: nat) returns (q: nat)
    requires m >= 1
    ensures q == x / m && q * m == x - x % m && q * m <= x < q * m + m
  {
    q := x / m;
    assert x == q * m + x % m;
  }

  lemma AlignUpMasks(k: nat, size: nat) returns (w: nat, q: nat)
    requires k <= 64
    ensures w == Pow2(k) && 1 <= w <= SIZE_T
    ensures q == Wrap(size + (w - 1)) / w && AlignUp(w, size) == q * w
    ensures q * w <= Wrap(size + (w - 1)) < q * w + w
  {
    var n := SizeTIsPow2();
    Positive(k);
    Pow2Monotone(k, n);
    w := Pow2(k);
    var s := Wrap(size + (w - 1));
    assert And(s, Not(w - 1)) == s - s % w by {
      MaskDropsRemainder(s, k, n);
    }
    q := Divided(s, w);
  }

  lemma WrapIs(x: nat)
    requires x < 2 * SIZE_T
    ensures Wrap(x) == if x < SIZE_T then x else x - SIZE_T
  {
  }

  lemma RoundedUp(w: nat, size: nat, q: nat, r: nat, s: nat)
    requires 1 <= w <= SIZE_T && size < SIZE_T && r == q * w && r <= s < r + w
    requires s == if size + w - 1 < SIZE_T then size + w - 1 else size + w - 1 - SIZE_T
    ensures r % w == 0
    ensures if size + w - 1 < SIZE_T then size <= r < size + w else r == 0 < size
  {
    UniqueRemainder(r, w, q, 0);
    if q > 0 {
      Scale(0, q, w);
    }
  }

  /**
   Rounding up by a power of two gives the least multiple not below the size,
   unless the addition wraps, and then it gives 0.
   */
  lemma AlignUpIsLeast(k: nat, size: nat)
    requires k <= 64 && size < SIZE_T
    ensures 1 <= Pow2(k) <= SIZE_T && AlignUp(Pow2(k), size) % Pow2(k) == 0
    ensures var w := Pow2(k);
      if size + w - 1 < SIZE_T then size <= AlignUp(w, size) < size + w else AlignUp(w, size) == 0 < size
  {
    var w, q := AlignUpMasks(k, size);
    WrapIs(size + (w - 1));
    RoundedUp(w, size, q, AlignUp(w, size), Wrap(size + (w - 1)));
  }

  // ------------------------------------------------------------------ routing

  const MAX_WORDS: nat := 16

  /** The smallest size, in words: two, as the alignment constant works out. */
  const SHIFT: nat := 2

  /** How many pools there are: one too few as written, for sizes up to the maximum. */
  function PoolsCount(ed: Edition): nat {
    if ed == AsWritten then MAX_WORDS - SHIFT else MAX_WORDS - SHIFT + 1
  }

  /** The slot of the pool for a size. */
  function Slot(word: nat, size: nat): nat
    requires 1 <= word <= SIZE_T
  {
    Wrap(AlignUp(word, size) / word - SHIFT)
  }

  /** The words a size takes. */
  function Words(word: nat, size: nat): nat
    requires word >= 1
  {
    (size + word - 1) / word
  }

  lemma NoWrap(k: nat, size: nat)
    requires k <= 59 && size <= MAX_WORDS * Pow2(k)
    ensures 1 <= Pow2(k) <= SIZE_T && Wrap(size + (Pow2(k) - 1)) == size + Pow2(k) - 1
  {
    var n := SizeTIsPow2();
    Positive(k);
    Pow2Monotone(k + 5, n);
    assert Pow2(k + 5) == 2 * Pow2(k + 4) == 4 * Pow2(k + 3);
    assert Pow2(k + 3) == 2 * Pow2(k + 2) == 4 * Pow2(k + 1);
  }

  lemma SlotOfMultiple(w: nat, size: nat, n: nat)
    requires 1 <= w <= SIZE_T && n <= MAX_WORDS && AlignUp(w, size) == n * w
    ensures Slot(w, size) == (if n >= SHIFT then n - SHIFT else SIZE_T + n - SHIFT)
  {
    UniqueRemainder(n * w, w, n, 0);
  }

  lemma SlotIs(k: nat, size: nat)
    requires k <= 59 && size <= MAX_WORDS * Pow2(k)
    ensures 1 <= Pow2(k) <= SIZE_T
    ensures var n := Words(Pow2(k), size);
      n <= MAX_WORDS && Slot(Pow2(k), size) == (if n >= SHIFT then n - SHIFT else SIZE_T + n - SHIFT)
  {
    RoundsTo(k, size);
    WordsBetween(Pow2(k), size, MAX_WORDS);
    SlotOfMultiple(Pow2(k), size, Words(Pow2(k), size));
  }

  /**
   The slot names an existing pool exactly for the sizes above one word and up
   to 15 words as written, which leaves out the maximum, or 16 with the repair.
   Within them, the pools serve two words, three words and so on in order.
   */
  lemma SlotInRange(k: nat, size: nat)
    requires k <= 59 && size <= 16 * Pow2(k)
    ensures 1 <= Pow2(k) <= SIZE_T
    ensures var w := Pow2(k);
      && (Slot(w, size) < PoolsCount(AsWritten) <==> w < size <= 15 * w)
      && (Slot(w, size) < PoolsCount(Repaired) <==> w < size <= 16 * w)
    ensures var w := Pow2(k);
      w < size ==> (Slot(w, size) + 1) * w < size <= (Slot(w, size) + 2) * w
  {
    SlotIs(k, size);
    var w := Pow2(k);
    WordsBetween(w, size, 1);
    WordsBetween(w, size, 15);
    WordsBetween(w, size, 16);
    WordsBetween(w, size, Words(w, size));
    if w < size {
      WordsBetween(w, size, Words(w, size) - 1);
    }
  }

  lemma WordsBetween(w: nat, size: nat, n: nat)
    requires w >= 1
    ensures Words(w, size) <= n <==> size <= n * w
  {
    var q := Words(w, size);
    assert size + w - 1 == q * w + (size + w - 1) % w;
    if q <= n {
      assert q * w <= n * w;
    } else {
      Scale(n, q, w);
    }
  }

  lemma RoundsTo(k: nat, size: nat)
    requires k <= 59 && size <= MAX_WORDS * Pow2(k)
    ensures 1 <= Pow2(k) <= SIZE_T && AlignUp(Pow2(k), size) == Words(Pow2(k), size) * Pow2(k)
  {
    NoWrap(k, size);
    var w, q := AlignUpMasks(k, size);
  }

  /** Two sizes share a pool exactly when they round up to the same multiple. */
  lemma SlotsShared(k: nat, a: nat, b: nat)
    requires k <= 59 && a <= MAX_WORDS * Pow2(k) && b <= MAX_WORDS * Pow2(k)
    ensures 1 <= Pow2(k) <= SIZE_T
    ensures var w := Pow2(k); Slot(w, a) == Slot(w, b) <==> AlignUp(w, a) == AlignUp(w, b)
  {
    SlotIs(k, a);
    SlotIs(k, b);
    RoundsTo(k, a);
    RoundsTo(k, b);
    var w, p, q := Pow2(k), Words(Pow2(k), a), Words(Pow2(k), b);
    if p < q {
      Scale(p, q, w);
    } else if q < p {
      Scale(q, p, w);
    }
  }
}
