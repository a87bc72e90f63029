/** Bit masks, wrap-around of unsigned 32-bit numbers, and the cells of a ring buffer. */
module Bits {

  const WRAP: int := 0x1_0000_0000

  function Add32(a: int, b: int): (r: nat)
    ensures r < WRAP
  {
    (a + b) % WRAP
  }

  function Sub32(a: int, b: int): (r: nat)
    ensures r < WRAP
  {
    (a - b) % WRAP
  }

  function Min(a: nat, b: nat): (m: nat)
    ensures m <= a && m <= b && (m == a || m == b)
  {
    if a < b then a else b
  }

  /** Bitwise and. */
  function BitAnd(a: nat, b: nat): nat {
    if a == 0 || b == 0 then 0
    else (if a % 2 == 1 && b % 2 == 1 then 1 else 0) + 2 * BitAnd(a / 2, b / 2)
  }

  function Bit(n: nat, k: nat): nat {
    if k == 0 then n % 2 else Bit(n / 2, k - 1)
  }

  /** Each bit of the result is set if and only if it is set in both. */
  lemma {:induction false} BitAndBits(a: nat, b: nat, k: nat)
    ensures Bit(BitAnd(a, b), k) == (if Bit(a, k) == 1 && Bit(b, k) == 1 then 1 else 0)
    decreases k
  {
    if k > 0 {
      BitAndBits(a / 2, b / 2, k - 1);
    }
    if a == 0 || b == 0 { ZeroBits(k); }
  }

  lemma {:induction false} ZeroBits(k: nat)
    ensures Bit(0, k) == 0
  {
    if k > 0 { ZeroBits(k - 1); }
  }

  predicate IsPow2(n: nat) {
    n == 1 || (n > 0 && n % 2 == 0 && IsPow2(n / 2))
  }

  /** The cell a free-running index stands for, in a buffer of `n` cells: the remainder of `i`. */
  function Cell(i: nat, n: nat): (c: nat)
    requires n > 0
    ensures c < n
  {
    if i < n then i else Cell(i - n, n)
  }

  lemma {:induction false} CellIsMod(i: nat, n: nat)
    requires n > 0
    ensures Cell(i, n) == i % n
  {
    if i >= n {
      CellIsMod(i - n, n);
      ModShift(i - n, n);
    } else {
      ModIs(i, n, 0, i);
    }
  }

  lemma ModShift(x: nat, n: nat)
    requires n > 0
    ensures (x + n) % n == x % n
  {
    assert n * (x / n + 1) == n * (x / n) + n;
    ModIs(x + n, n, x / n + 1, x % n);
  }

  lemma ModIs(x: int, m: nat, d: int, r: nat)
    requires m > 0 && r < m && x == m * d + r
    ensures x % m == r
  {
    assert m * (x / m - d) == r - x % m;
    MulSign(m, x / m - d);
  }

  lemma MulSign(m: nat, e: int)
    requires m > 0
    ensures e >= 1 ==> m * e >= m
    ensures e <= -1 ==> m * e <= 0 - m
  {
  }

  // ----- Masking -----

  lemma {:induction false} HalveCell(x: nat, q: nat)
    requires q > 0
    ensures Cell(x, 2 * q) == x % 2 + 2 * Cell(x / 2, q)
  {
    if x >= 2 * q {
      HalveCell(x - 2 * q, q);
    }
  }

  /** For a power of two `n`, masking with `n - 1` gives the cell. */
  lemma {:induction false} MaskIsCell(x: nat, n: nat)
    requires IsPow2(n)
    ensures BitAnd(x, n - 1) == Cell(x, n)
    decreases n
  {
    if n == 1 {
      CellOfOne(x);
    } else if x > 0 {
      MaskIsCell(x / 2, n / 2);
      HalveCell(x, n / 2);
    }
  }

  lemma {:induction false} CellOfOne(x: nat)
    ensures Cell(x, 1) == 0
  {
    if x > 0 {
      CellOfOne(x - 1);
    }
  }

  /** For any other size already the size itself is masked wrongly. */
  lemma {:induction false} MaskOfSize(n: nat)
    requires n > 0
    ensures BitAnd(n, n - 1) == 0 <==> IsPow2(n)
  {
    if n > 1 {
      if n % 2 == 0 {
        MaskOfSize(n / 2);
      } else {
        AndSelf(n / 2);
      }
    }
  }

  lemma {:induction false} AndSelf(a: nat)
    ensures BitAnd(a, a) == a
  {
    if a > 0 {
      AndSelf(a / 2);
    }
  }

  /** Masking with `n - 1` computes the remainder by `n` exactly when `n` is a power of two. */
  lemma MaskExactIff(n: nat)
    requires n > 0
    ensures (forall x: nat :: BitAnd(x, n - 1) == x % n) <==> IsPow2(n)
  {
    if IsPow2(n) {
      forall x: nat
        ensures BitAnd(x, n - 1) == x % n
      {
        MaskIsCell(x, n);
        CellIsMod(x, n);
      }
    } else {
      MaskOfSize(n);
      CellIsMod(n, n);
      assert BitAnd(n, n - 1) != n % n;
    }
  }

  // ----- Positions and cells -----

  lemma {:induction false} CellAfter(i: nat, j: nat, n: nat)
    requires n > 0 && j <= n
    ensures Cell(i + j, n) == if Cell(i, n) + j < n then Cell(i, n) + j else Cell(i, n) + j - n
    decreases i
  {
    if i >= n {
      CellAfter(i - n, j, n);
    }
  }

  /** Positions less than a buffer apart have different cells. */
  lemma CellsDiffer(i: nat, j: nat, n: nat)
    requires n > 0 && i < j < i + n
    ensures Cell(i, n) != Cell(j, n)
  {
    CellAfter(i, j - i, n);
  }

  lemma {:induction false} Pow2Gap(n: nat, t: nat)
    requires IsPow2(n) && IsPow2(t) && n < t
    ensures 2 * n <= t && IsPow2(t / 2)
  {
    if n > 1 {
      Pow2Gap(n / 2, t / 2);
    }
  }

  /** A power of two `t >= n` is a whole number of turns around the buffer. */
  lemma {:induction false} WholeTurns(x: nat, t: nat, n: nat)
    requires IsPow2(n) && IsPow2(t) && n <= t
    ensures Cell(x + t, n) == Cell(x, n)
    decreases t
  {
    if n < t {
      Pow2Gap(n, t);
      WholeTurns(x + t / 2, t / 2, n);
      WholeTurns(x, t / 2, n);
    }
  }

  function Pow2(k: nat): nat {
    if k == 0 then 1 else 2 * Pow2(k - 1)
  }

  lemma {:induction false} Pow2IsPow2(k: nat)
    ensures IsPow2(Pow2(k))
  {
    if k > 0 {
      Pow2IsPow2(k - 1);
      assert Pow2(k) / 2 == Pow2(k - 1) && Pow2(k) % 2 == 0;
    }
  }

  lemma WrapIsPow2()
    ensures IsPow2(WRAP)
  {
    Pow2IsPow2(32);
    WrapIs32Bits();
  }

  lemma WrapIs32Bits()
    ensures WRAP == Pow2(32)
  {
    FourMore(0);
    FourMore(4);
    FourMore(8);
    FourMore(12);
    FourMore(16);
    FourMore(20);
    FourMore(24);
    FourMore(28);
  }

  lemma FourMore(k: nat)
    ensures Pow2(k + 4) == 16 * Pow2(k)
  {
    assert Pow2(k + 2) == 4 * Pow2(k);
  }

  lemma Add32Is(a: nat, b: nat)
    requires a < WRAP && b < WRAP
    ensures Add32(a, b) == if a + b < WRAP then a + b else a + b - WRAP
  {
  }

  lemma Sub32Is(a: nat, b: nat)
    requires a < WRAP && b < WRAP
    ensures Sub32(a, b) == if a >= b then a - b else a - b + WRAP
  {
  }

  /** Wrap-around is invisible: an index that wrapped around still leads to the same cell. */
  lemma WrappedCell(i: nat, j: nat, k: nat, n: nat)
    requires IsPow2(n) && n <= WRAP && i < WRAP && j < WRAP
    ensures Cell(Add32(i, j) + k, n) == Cell(i + j + k, n)
  {
    Add32Is(i, j);
    if i + j >= WRAP {
      WrapIsPow2();
      WholeTurns(i + j - WRAP + k, WRAP, n);
    }
  }
}
