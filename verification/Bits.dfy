/** Powers of two and bitwise operations on natural numbers. */
module Bits {
  import opened Collections

  function Pow2(n: nat): (r: nat)
    ensures r >= 1
  {
    if n == 0 then 1 else 2 * Pow2(n - 1)
  }

  /** Bitwise or. */
  function Or(a: nat, b: nat): (r: nat)
    decreases a + b
  {
    if a == 0 && b == 0 then 0
    else 2 * Or(a / 2, b / 2) + if a % 2 == 1 || b % 2 == 1 then 1 else 0
  }

  /** Shift right. */
  function Shr(a: nat, k: nat): (r: nat)
    decreases k
  {
    if k == 0 then a else Shr(a / 2, k - 1)
  }

  function BitLen(x: nat): (r: nat) {
    if x == 0 then 0 else 1 + BitLen(x / 2)
  }

  /** The number of `t` ones. */
  function Ones(t: nat): (r: nat)
    ensures r + 1 == Pow2(t)
  {
    if t == 0 then 0 else 2 * Ones(t - 1) + 1
  }

  lemma {:induction false} ShrShr(a: nat, m: nat, n: nat)
    ensures Shr(Shr(a, m), n) == Shr(a, m + n)
    decreases m
  {
    if m > 0 {
      ShrShr(a / 2, m - 1, n);
    }
  }

  lemma {:induction false} ShrOr(a: nat, b: nat, k: nat)
    ensures Shr(Or(a, b), k) == Or(Shr(a, k), Shr(b, k))
    decreases k
  {
    if k > 0 {
      ShrOr(a / 2, b / 2, k - 1);
      assert Or(a, b) / 2 == Or(a / 2, b / 2);
    }
  }

  lemma {:induction false} ShrOnes(t: nat, k: nat)
    requires k <= t
    ensures Shr(Ones(t), k) == Ones(t - k)
    decreases k
  {
    if k > 0 {
      ShrOnes(t - 1, k - 1);
      assert Ones(t) / 2 == Ones(t - 1);
    }
  }

  lemma {:induction false} OrZero(a: nat)
    ensures Or(a, 0) == a
  {
    if a > 0 {
      OrZero(a / 2);
    }
  }

  lemma {:induction false} OrOnes(a: nat, t: nat, j: nat)
    requires Shr(a, j) == Ones(t)
    ensures Or(a, Ones(j)) == Ones(t + j)
    decreases j
  {
    if j == 0 {
      OrZero(a);
    } else {
      OrOnes(a / 2, t, j - 1);
      assert Ones(j) / 2 == Ones(j - 1) && Ones(j) % 2 == 1;
    }
  }

  /** The `t` highest of the `n` bits of `x` are ones. */
  predicate TopOnes(x: nat, n: nat, t: nat) {
    t <= n && Shr(x, n - t) == Ones(t)
  }

  lemma TopFills(a: nat, s: nat, t: nat)
    requires t <= s <= 2 * t && Shr(a, s - t) == Ones(t)
    ensures Or(a, Shr(a, t)) == Ones(s)
  {
    ShrShr(a, s - t, 2 * t - s);
    ShrOnes(t, 2 * t - s);
    OrOnes(a, t, s - t);
  }

  lemma ShrSmear(x: nat, t: nat, k: nat)
    ensures Shr(Or(x, Shr(x, t)), k) == Or(Shr(x, k), Shr(Shr(x, k), t))
  {
    ShrOr(x, Shr(x, t), k);
    ShrShr(x, t, k);
    ShrShr(x, k, t);
  }

  lemma TopOfTop(x: nat, n: nat, t: nat, s: nat)
    requires t <= s <= n
    ensures Shr(Shr(x, n - s), s - t) == Shr(x, n - t)
  {
    ShrShr(x, n - s, s - t);
  }

  lemma SmearTo(x: nat, n: nat, t: nat, s: nat)
    requires TopOnes(x, n, t) && t <= s <= n && s <= 2 * t
    ensures TopOnes(Or(x, Shr(x, t)), n, s)
  {
    TopOfTop(x, n, t, s);
    TopFills(Shr(x, n - s), s, t);
    ShrSmear(x, t, n - s);
  }

  /** Or-ing with itself shifted by `t` doubles the ones at the top. */
  lemma SmearDoubles(x: nat, n: nat, t: nat)
    requires TopOnes(x, n, t)
    ensures TopOnes(Or(x, Shr(x, t)), n, Min(2 * t, n))
  {
    SmearTo(x, n, t, Min(2 * t, n));
  }

  lemma SmearDone(r: nat, n: nat, k: nat)
    requires n < k && TopOnes(r, n, n)
    ensures TopOnes(Or(r, Shr(r, k)), n, n)
  {
    ShrOnes(n, n);
    ShrShr(r, n, k - n);
    ShrZero(k - n);
    OrZero(r);
  }

  lemma {:induction false} ShrZero(k: nat)
    ensures Shr(0, k) == 0
    decreases k
  {
    if k > 0 {
      ShrZero(k - 1);
    }
  }

  lemma {:induction false} TopBit(x: nat)
    requires x > 0
    ensures TopOnes(x, BitLen(x), 1)
  {
    if x > 1 {
      TopBit(x / 2);
    } else {
      assert Ones(1) == 1;
    }
  }

  lemma {:induction false} BitLenBounds(x: nat)
    ensures x < Pow2(BitLen(x))
    ensures x > 0 ==> Pow2(BitLen(x) - 1) <= x
  {
    if x > 0 {
      BitLenBounds(x / 2);
    }
  }

  lemma {:induction false} Pow2Grows(m: nat, n: nat)
    requires m < n
    ensures 2 * Pow2(m) <= Pow2(n)
  {
    if m < n - 1 {
      Pow2Grows(m, n - 1);
    }
  }

  lemma {:induction false} Pow2Sum(m: nat, n: nat)
    ensures Pow2(m + n) == Pow2(m) * Pow2(n)
  {
    if m > 0 {
      Pow2Sum(m - 1, n);
      assert Pow2(m + n) == 2 * Pow2(m - 1 + n);
    }
  }

  const MAX_INT := 0x7FFF_FFFF_FFFF_FFFF

  lemma BigPowers()
    ensures Pow2(62) == 0x4000_0000_0000_0000 && Pow2(63) == MAX_INT + 1
  {
    assert Pow2(8) == 0x100;
    assert Pow2(16) == 0x1_0000 by { Pow2Sum(8, 8); }
    assert Pow2(32) == 0x1_0000_0000 by { Pow2Sum(16, 16); }
    assert Pow2(48) == 0x1_0000_0000_0000 by { Pow2Sum(32, 16); }
    assert Pow2(56) == 0x100_0000_0000_0000 by { Pow2Sum(48, 8); }
    assert Pow2(62) == 0x4000_0000_0000_0000 by { Pow2Sum(56, 6); }
  }
}
