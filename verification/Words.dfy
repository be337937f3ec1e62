/**
 64-bit unsigned words as the allocator uses them: sums wrap modulo 2^64, and a mask with
 `~(boundary - 1)` for a power-of-two boundary is rounding down to a multiple of it.
 */
module Words {

  const WORD: nat := 0x1_0000_0000_0000_0000
  const GRANULE: nat := 8
  const PAGE: nat := 4096
  /** Heap addresses are user-space addresses (48-bit address spaces, upper half excluded). */
  const SPACE: nat := 0x8000_0000_0000

  type u64 = x: int | 0 <= x < WORD
  type u32 = x: int | 0 <= x < 0x1_0000_0000

  /** The sum of two words, modulo 2^64. */
  function Wrap(x: nat): u64
    requires x < 2 * WORD
  {
    if x < WORD then x else x - WORD
  }

  function Min(a: int, b: int): int {
    if a < b then a else b
  }

  function Max(a: int, b: int): int {
    if a > b then a else b
  }

  // ------------------------------------------------------------ powers of two

  function Pow2(n: nat): (r: nat)
    ensures r > 0
  {
    if n == 0 then 1 else 2 * Pow2(n - 1)
  }

  /** `(x & (x - 1)) == 0`: at most one bit of x is set. Zero passes the test. */
  ghost predicate IsPowerOfTwo(x: nat) {
    x == 0 || exists k: nat :: x == Pow2(k)
  }

  /** Index of the set bit of a power of two. */
  function Log2(x: nat): nat
    requires x > 0
  {
    if x == 1 then 0 else 1 + Log2(x / 2)
  }

  lemma {:induction false} Log2Pow2(k: nat)
    ensures Log2(Pow2(k)) == k
  {
    if k > 0 {
      Log2Pow2(k - 1);
    }
  }

  lemma {:induction false} Pow2Monotone(m: nat, n: nat)
    requires m <= n
    ensures Pow2(m) <= Pow2(n)
    decreases n
  {
    if m < n {
      Pow2Monotone(m, n - 1);
    }
  }

  lemma {:induction false} Pow2Granular(n: nat)
    ensures n >= 3 ==> Pow2(n) % 8 == 0
    ensures n >= 4 ==> Pow2(n) % 16 == 0
    ensures n >= 5 ==> Pow2(n) % 32 == 0
  {
    if n > 3 {
      Pow2Granular(n - 1);
    }
  }

  /** The exponent of a redzone size. */
  lemma RedzoneLog(x: nat)
    requires 16 <= x <= 2048 && IsPowerOfTwo(x)
    ensures 4 <= Log2(x) < 12 && x == 16 * Pow2(Log2(x) - 4)
  {
    var k: nat :| x == Pow2(k);
    Log2Pow2(k);
    if k < 4 {
      Pow2Monotone(k, 3);
    } else if k > 11 {
      Pow2Monotone(12, k);
    }
    assert Pow2(k) == 2 * Pow2(k - 1) == 4 * Pow2(k - 2) == 8 * Pow2(k - 3) == 16 * Pow2(k - 4);
  }

  /** A power of two above 8 is a multiple of 16. */
  lemma PowerAbove8(x: nat)
    requires IsPowerOfTwo(x) && x > 8
    ensures x >= 16 && x % 16 == 0
  {
    var k: nat :| x == Pow2(k);
    if k <= 3 {
      Pow2Monotone(k, 3);
    } else {
      Pow2Monotone(4, k);
      Pow2Granular(k);
    }
  }

  lemma PowerAbove16(x: nat)
    requires IsPowerOfTwo(x) && x > 16
    ensures x % 32 == 0
  {
    var k: nat :| x == Pow2(k);
    if k <= 4 {
      Pow2Monotone(k, 4);
    } else {
      Pow2Granular(k);
    }
  }

  /** A power of two that fits a word is 2^63 or at most 2^62. */
  lemma LargestPowers(x: u64)
    requires IsPowerOfTwo(x)
    ensures x <= 0x4000_0000_0000_0000 || x == 0x8000_0000_0000_0000
  {
    if x > 0 {
      var k: nat :| x == Pow2(k);
      Pow2TopValues();
      if k <= 62 {
        Pow2Monotone(k, 62);
      } else if k >= 64 {
        Pow2Monotone(64, k);
      }
    }
  }

  lemma Pow2TopValues()
    ensures Pow2(62) == 0x4000_0000_0000_0000 && Pow2(63) == 0x8000_0000_0000_0000
    ensures Pow2(64) == WORD
  {
    assert Pow2(8) == 0x100;
    assert Pow2(16) == 0x1_0000;
    assert Pow2(24) == 0x100_0000;
    assert Pow2(32) == 0x1_0000_0000;
    assert Pow2(40) == 0x100_0000_0000;
    assert Pow2(48) == 0x1_0000_0000_0000;
    assert Pow2(56) == 0x100_0000_0000_0000;
  }

  // ----------------------------------------------------------------- rounding

  /** The remainder of x by a boundary that is not a literal; `RemIsMod` says it is `x % m`. */
  function Rem(x: nat, m: nat): (r: nat)
    requires m > 0
    ensures r < m && r <= x
  {
    if x < m then x else Rem(x - m, m)
  }

  function RoundDownTo(x: u64, boundary: u64): (r: u64)
    requires boundary > 0
  {
    x - Rem(x, boundary)
  }

  function RoundUpTo(x: u64, boundary: u64): (r: u64)
    requires boundary > 0
  {
    RoundDownTo(Wrap(x + boundary - 1), boundary)
  }

  predicate IsAligned(x: u64, boundary: u64)
    requires boundary > 0
  {
    Rem(x, boundary) == 0
  }

  /** x is a multiple of m, stated by `Rem`. */
  predicate Multiple(x: nat, m: nat)
    requires m > 0
  {
    Rem(x, m) == 0
  }

  lemma {:induction false} RemIsMod(x: nat, m: nat)
    requires m > 0
    ensures Rem(x, m) == x % m
  {
    if x >= m {
      RemIsMod(x - m, m);
      assert x - m == m * ((x - m) / m) + (x - m) % m;
      DivModUnique(x, m, (x - m) / m + 1, (x - m) % m);
    } else {
      DivModUnique(x, m, 0, x);
    }
  }

  /** Quotient and remainder are determined by their defining equation. */
  lemma DivModUnique(x: int, m: nat, q: int, r: nat)
    requires m > 0 && x == m * q + r && r < m
    ensures x / m == q && x % m == r
  {
    var d := x / m - q;
    assert x == m * (x / m) + x % m;
    assert m * d == r - x % m by {
      assert m * (x / m) - m * q == m * d;
    }
    assert d >= 1 ==> m * d >= m;
    assert d <= -1 ==> m * d <= m * -1;
  }

  /** Rounding down gives a multiple of the boundary. */
  lemma {:induction false} RoundDownMultiple(x: nat, m: nat)
    requires m > 0
    ensures Rem(x - Rem(x, m), m) == 0
    ensures x >= m ==> x - Rem(x, m) >= m
  {
    if x >= m {
      RoundDownMultiple(x - m, m);
    }
  }

  lemma SumOfEights(a: nat, b: nat)
    requires a % 8 == 0 && b % 8 == 0
    ensures (a + b) % 8 == 0
  {
  }

  lemma SumOfSixteens(a: nat, b: nat)
    requires a % 16 == 0 && b % 16 == 0
    ensures (a + b) % 16 == 0
  {
  }

  lemma {:induction false} RoundDown8(x: nat, m: nat)
    requires m > 0 && m % 8 == 0
    ensures (x - Rem(x, m)) % 8 == 0
  {
    if x >= m {
      RoundDown8(x - m, m);
      SumOfEights(x - m - Rem(x - m, m), m);
    }
  }

  lemma {:induction false} RoundDown16(x: nat, m: nat)
    requires m > 0 && m % 16 == 0
    ensures (x - Rem(x, m)) % 16 == 0
  {
    if x >= m {
      RoundDown16(x - m, m);
      SumOfSixteens(x - m - Rem(x - m, m), m);
    }
  }

  lemma SumOf32s(a: nat, b: nat)
    requires a % 32 == 0 && b % 32 == 0
    ensures (a + b) % 32 == 0
  {
  }

  lemma {:induction false} MultipleOf32(x: nat, m: nat)
    requires m > 0 && m % 32 == 0 && Rem(x, m) == 0
    ensures x % 32 == 0
  {
    if x >= m {
      MultipleOf32(x - m, m);
      SumOf32s(x - m, m);
    }
  }

  /** Rounding up without overflow: the least multiple that is not below x. */
  lemma RoundUpProps(x: u64, m: u64)
    requires m > 0
    requires x + m - 1 < WORD
    ensures x <= RoundUpTo(x, m) < x + m
    ensures Rem(RoundUpTo(x, m), m) == 0
    ensures x > 0 ==> RoundUpTo(x, m) >= m
  {
    RoundDownMultiple(x + m - 1, m);
  }

  /** r is the first multiple of m at or after lo. */
  ghost predicate FirstMultiple(r: nat, lo: nat, m: nat)
    requires m > 0
  {
    lo <= r && Multiple(r, m) && forall v: nat :: lo <= v < r ==> !Multiple(v, m)
  }

  lemma {:induction false} MultiplesApart(a: nat, b: nat, m: nat)
    requires m > 0 && Multiple(a, m) && Multiple(b, m) && a < b
    ensures a + m <= b
  {
    if a >= m {
      MultiplesApart(a - m, b - m, m);
    }
  }

  lemma FirstFrom(r: nat, lo: nat, m: nat)
    requires m > 0 && lo <= r < lo + m && Multiple(r, m)
    ensures FirstMultiple(r, lo, m)
  {
    forall v: nat | lo <= v < r
      ensures !Multiple(v, m)
    {
      if Multiple(v, m) {
        MultiplesApart(v, r, m);
      }
    }
  }
}
