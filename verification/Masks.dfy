/** Bit masks as used by include/hydra/spsc_queue.hpp: `&` on natural numbers, and why masking with N - 1 is the
    remainder modulo N when N is a power of two. */
module Masks {
  import opened Types
  import opened Allocation

  /** Bitwise and. */
  function And(x: nat, y: nat): (z: nat)
    ensures z <= y
    decreases x
  {
    if x == 0 then 0 else (if x % 2 == 1 then y % 2 else 0) + 2 * And(x / 2, y / 2)
  }

  function Pow2(k: nat): (p: nat)
    ensures p > 0
  {
    if k == 0 then 1 else 2 * Pow2(k - 1)
  }

  lemma {:induction false} AndZero(x: nat)
    ensures And(x, 0) == 0
  {
    if x > 0 {
      AndZero(x / 2);
    }
  }

  lemma HalfMod(x: nat, p: nat)
    requires p > 0
    ensures x % (2 * p) == 2 * (x / 2 % p) + x % 2
  {
    var q, r := x / 2 / p, x / 2 % p;
    assert x / 2 == p * q + r;
    assert x == (2 * p) * q + (2 * r + x % 2);
    ModUnique(x, 2 * p, q, 2 * r + x % 2);
  }

  lemma ModUnique(x: int, n: int, q: int, r: int)
    requires n > 0 && x == n * q + r && 0 <= r < n
    ensures x % n == r && x / n == q
  {
    assert x == n * (x / n) + x % n;
    MulCancel(n, q, x / n);
    MulCancel(n, x / n, q);
  }

  lemma AndOdd(x: nat, p: nat)
    requires p > 0
    ensures And(x, 2 * p - 1) == if x == 0 then 0 else x % 2 + 2 * And(x / 2, p - 1)
  {
    assert (2 * p - 1) % 2 == 1 && (2 * p - 1) / 2 == p - 1;
  }

  lemma {:induction false} MaskIsModOf(x: nat, k: nat, p: nat)
    requires p == Pow2(k)
    ensures And(x, p - 1) == x % p
  {
    if k == 0 {
      AndZero(x);
    } else {
      var half := Pow2(k - 1);
      hide And;
      MaskIsModOf(x / 2, k - 1, half);
      MaskStep(x, half, p);
    }
  }

  /** x & (2^k - 1) == x mod 2^k. */
  lemma MaskIsMod(x: nat, k: nat)
    ensures And(x, Pow2(k) - 1) == x % Pow2(k)
  {
    MaskIsModOf(x, k, Pow2(k));
  }

  lemma MaskStep(x: nat, p: nat, p2: nat)
    requires p > 0 && p2 == 2 * p && And(x / 2, p - 1) == x / 2 % p
    ensures And(x, p2 - 1) == x % p2
  {
    hide And;
    HalfMod(x, p);
    AndOdd(x, p);
  }

  lemma {:induction false} AndSelf(n: nat)
    ensures And(n, n) == n
  {
    if n > 0 {
      AndSelf(n / 2);
    }
  }

  lemma OddIsNoPower(n: nat)
    requires n > 1 && n % 2 == 1
    ensures forall k: nat :: n != Pow2(k)
  {
    forall k: nat
      ensures n != Pow2(k)
    {
      assert k > 0 ==> Pow2(k) == 2 * Pow2(k - 1);
    }
  }

  /** The queue's static_assert accepts exactly the powers of two. */
  lemma {:induction false} PowerTest(n: nat)
    requires n > 0
    ensures And(n, n - 1) == 0 <==> exists k: nat :: n == Pow2(k)
  {
    if n == 1 {
      AndZero(1);
      assert n == Pow2(0);
    } else if n % 2 == 1 {
      OddIsNoPower(n);
      AndSelf(n / 2);
      assert (n - 1) / 2 == n / 2 && (n - 1) % 2 == 0;
      assert And(n, n - 1) == 2 * And(n / 2, n / 2);
    } else {
      AndOdd(n, n / 2);
      PowerTest(n / 2);
      assert And(n, n - 1) == 2 * And(n / 2, n / 2 - 1);
      if And(n / 2, n / 2 - 1) == 0 {
        var k: nat :| n / 2 == Pow2(k);
        assert n == Pow2(k + 1);
      } else {
        HalfIsNoPower(n);
      }
    }
  }

  lemma {:induction false} Pow2Plus(j: nat, k: nat)
    ensures Pow2(j + k) == Pow2(j) * Pow2(k)
  {
    if k > 0 {
      Pow2Plus(j, k - 1);
      MulDouble(Pow2(j), Pow2(k - 1));
    }
  }

  lemma MulDouble(x: nat, y: nat)
    ensures x * (2 * y) == 2 * (x * y)
  {
  }

  lemma Pow2Square(k: nat, p: nat)
    requires Pow2(k) == p
    ensures Pow2(2 * k) == p * p
  {
    Pow2Plus(k, k);
  }

  lemma Pow2Limit(k: nat)
    requires k == 8
    ensures Pow2(8 * k) == U64_LIMIT
  {
    assert Pow2(k) == 256;
    hide Pow2;
    Pow2Square(k, 0x100);
    Pow2Square(2 * k, 0x1_0000);
    Pow2Square(4 * k, 0x1_0000_0000);
  }

  lemma {:induction false} Pow2Beyond(k: nat)
    requires k >= 64
    ensures Pow2(k) >= U64_LIMIT
  {
    if k == 64 {
      Pow2Limit(k / 8);
    } else {
      Pow2Beyond(k - 1);
    }
  }

  /** The test as the compiler evaluates it, in uint64: it accepts the powers of two, and 0 as well, where N - 1 wraps. */
  lemma StaticAssertAccepts(n: uint64)
    ensures And(n, (n - 1) % U64_LIMIT) == 0 <==> n == 0 || exists k: nat :: k < 64 && n == Pow2(k)
  {
    if n > 0 {
      hide And, Pow2;
      assert (n - 1) % U64_LIMIT == n - 1;
      PowerTest(n);
      forall k: nat | n == Pow2(k)
        ensures k < 64
      {
        if k >= 64 {
          Pow2Beyond(k);
        }
      }
    }
  }

  /** A remainder modulo a multiple of n keeps the remainder modulo n. */
  lemma ModMod(c: nat, n: nat, m: nat, nm: nat)
    requires n > 0 && nm == n * m && nm > 0
    ensures c % nm % n == c % n
  {
    var q, r := c / nm, c % nm;
    assert c == nm * q + r;
    MulRegroup(n, m, q);
    SameRemainder(c, n, m * q, r);
  }

  lemma SameRemainder(c: nat, n: nat, x: nat, r: nat)
    requires n > 0 && c == n * x + r
    ensures c % n == r % n
  {
    assert r == n * (r / n) + r % n;
    MulSum(n, x, r / n);
    ModUnique(c, n, x + r / n, r % n);
  }

  lemma MulSum(n: nat, x: nat, y: nat)
    ensures n * (x + y) == n * x + n * y
  {
  }

  lemma MulRegroup(n: nat, m: nat, q: nat)
    ensures (n * m) * q == n * (m * q)
  {
  }

  /** A power of two below 2^64 divides 2^64. */
  lemma DividesLimit(n: nat) returns (k: nat, m: nat)
    requires 0 < n < U64_LIMIT && And(n, n - 1) == 0
    ensures n == Pow2(k) && n * m == U64_LIMIT
  {
    hide And;
    PowerTest(n);
    k :| n == Pow2(k);
    hide Pow2;
    if k >= 64 {
      Pow2Beyond(k);
    }
    Pow2Plus(k, 64 - k);
    Pow2Limit(8);
    m := Pow2(64 - k);
  }

  /** A counter that wraps at 2^64 still leads to the slot of its number. */
  lemma WrappedMask(c: nat, n: nat)
    requires 0 < n < U64_LIMIT && And(n, n - 1) == 0
    ensures And(c % U64_LIMIT, n - 1) == c % n
  {
    hide And, Pow2;
    var k, m := DividesLimit(n);
    MaskIsMod(c % U64_LIMIT, k);
    ModMod(c, n, m, U64_LIMIT);
  }

  lemma HalfIsNoPower(n: nat)
    requires n > 1 && n % 2 == 0 && forall k: nat :: n / 2 != Pow2(k)
    ensures forall k: nat :: n != Pow2(k)
  {
    forall k: nat
      ensures n != Pow2(k)
    {
      assert k > 0 ==> n / 2 != Pow2(k - 1);
    }
  }

  /** Different positions of a window of at most n take different remainders. */
  lemma WindowDistinct(i: nat, j: nat, n: nat)
    requires n > 0 && i < j < i + n
    ensures i % n != j % n
  {
    if i % n == j % n {
      var a, b := i / n, j / n;
      assert i == n * a + i % n && j == n * b + j % n;
      MulCancel(n, b, a);
      MulMonotone(n, b, a);
    }
  }
}
