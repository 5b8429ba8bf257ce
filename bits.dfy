/** Bit arithmetic on non-negative integers, as the evaluator uses it on
    basis indices: `1 << k`, `i >> k`, `& 1` and `^`.  Qubit k is bit k of
    the basis index (bit 0 is the least significant). */
module Bits {

  /** `1 << k` */
  function Pow2(k: nat): (r: nat)
    ensures r >= 1
  {
    if k == 0 then 1 else 2 * Pow2(k - 1)
  }

  /** `i >> k` on a non-negative integer: k successive halvings. */
  function Shr(i: nat, k: nat): (r: nat)
  {
    if k == 0 then i else Shr(i / 2, k - 1)
  }

  /** `(i >> k) & 1`: bit k of i. */
  function Bit(i: nat, k: nat): (r: nat)
  {
    Shr(i, k) % 2
  }

  /** `a ^ b` on non-negative integers, one bit at a time from bit 0. */
  function Xor(a: nat, b: nat): (r: nat)
    decreases a + b
  {
    if a == 0 && b == 0 then 0
    else 2 * Xor(a / 2, b / 2) + (if a % 2 == b % 2 then 0 else 1)
  }

  /** Shifting right by k is integer division by 2^k. */
  lemma {:induction false} ShrIsDivision(i: nat, k: nat)
    ensures Shr(i, k) == i / Pow2(k)
  {
    if k > 0 {
      ShrIsDivision(i / 2, k - 1);
      DivDiv(i, Pow2(k - 1));
    }
  }

  lemma DivDiv(i: nat, m: nat)
    requires m >= 1
    ensures (i / 2) / m == i / (2 * m)
  {
    var m2 := 2 * m;
    var q := i / m2;
    var s := i % m2;
    assert i == m2 * q + s;
    var mq := m * q;
    assert m2 * q == 2 * mq;
    assert s == 2 * (s / 2) + s % 2;
    assert i == 2 * (mq + s / 2) + s % 2;
    DivUnique(i, 2, mq + s / 2, s % 2);
    assert s / 2 < m;
    DivUnique(i / 2, m, q, s / 2);
  }

  /** Integer division is determined by quotient and remainder. */
  lemma DivUnique(x: nat, d: nat, q: nat, r: nat)
    requires d >= 1 && r < d && x == d * q + r
    ensures x / d == q
  {
    var q', r' := x / d, x % d;
    assert d * q' + r' == d * q + r;
    assert q' > q ==> d * q' >= d * (q + 1) == d * q + d;
    assert q' < q ==> d * q >= d * (q' + 1) == d * q' + d;
  }

  lemma {:induction false} Pow2Monotone(a: nat, b: nat)
    requires a <= b
    ensures Pow2(a) <= Pow2(b)
  {
    if a < b {
      Pow2Monotone(a, b - 1);
    }
  }

  /** An index whose bit k is set is at least 2^k. */
  lemma {:induction false} BitSetIsLarge(i: nat, k: nat)
    requires Bit(i, k) == 1
    ensures i >= Pow2(k)
  {
    if k > 0 {
      assert Bit(i, k) == Bit(i / 2, k - 1);
      BitSetIsLarge(i / 2, k - 1);
    }
  }

  /** An index below 2^n has no bit set at position n or above. */
  lemma BitAboveWidth(i: nat, k: nat, n: nat)
    requires i < Pow2(n) && n <= k
    ensures Bit(i, k) == 0
  {
    if Bit(i, k) == 1 {
      BitSetIsLarge(i, k);
      Pow2Monotone(n, k);
    }
  }

  /** A bit that is set in an index below 2^n lies below n. */
  lemma SetBitBelowWidth(i: nat, k: nat, n: nat)
    requires i < Pow2(n) && Bit(i, k) == 1
    ensures k < n
  {
    BitSetIsLarge(i, k);
    if n <= k {
      Pow2Monotone(n, k);
    }
  }

  /** Bit j of 2^k is set exactly when j == k. */
  lemma {:induction false} BitOfPow2(k: nat, j: nat)
    ensures Bit(Pow2(k), j) == if j == k then 1 else 0
  {
    if k > 0 && j > 0 {
      assert Bit(Pow2(k), j) == Bit(Pow2(k - 1), j - 1);
      BitOfPow2(k - 1, j - 1);
    } else if k > 0 {
      assert Pow2(k) % 2 == 0;
    } else if j > 0 {
      assert Bit(1, j) == Bit(0, j - 1);
      ZeroHasNoBits(j - 1);
    }
  }

  lemma {:induction false} ZeroHasNoBits(j: nat)
    ensures Bit(0, j) == 0
  {
    if j > 0 {
      ZeroHasNoBits(j - 1);
    }
  }

  /** Bit k of `a ^ b` is set exactly when bit k of a and bit k of b differ. */
  lemma {:induction false} BitOfXor(a: nat, b: nat, k: nat)
    ensures Bit(Xor(a, b), k) == if Bit(a, k) == Bit(b, k) then 0 else 1
    decreases k
  {
    if k > 0 {
      assert Xor(a, b) / 2 == Xor(a / 2, b / 2);
      assert Bit(Xor(a, b), k) == Bit(Xor(a / 2, b / 2), k - 1);
      BitOfXor(a / 2, b / 2, k - 1);
    }
  }

  /** `i ^ (1 << t)` has every bit but bit t as i has it. */
  lemma FlipKeepsOtherBits(i: nat, t: nat)
    ensures forall k :: k != t ==> Bit(Xor(i, Pow2(t)), k) == Bit(i, k)
  {
    forall k | k != t
      ensures Bit(Xor(i, Pow2(t)), k) == Bit(i, k)
    {
      BitOfXor(i, Pow2(t), k);
      BitOfPow2(t, k);
    }
  }

  /** `(a ^ b) ^ b == a` */
  lemma {:induction false} XorCancel(a: nat, b: nat)
    ensures Xor(Xor(a, b), b) == a
    decreases a + b
  {
    var x := Xor(a, b);
    if a == 0 && b == 0 {
    } else {
      XorCancel(a / 2, b / 2);
      assert x / 2 == Xor(a / 2, b / 2) && x % 2 == (if a % 2 == b % 2 then 0 else 1);
      if b == 0 {
        XorZero(a);
      }
      assert Xor(x, b) == 2 * Xor(x / 2, b / 2) + (if x % 2 == b % 2 then 0 else 1);
    }
  }

  /** `a ^ 0 == a` */
  lemma {:induction false} XorZero(a: nat)
    ensures Xor(a, 0) == a
  {
    if a > 0 {
      XorZero(a / 2);
    }
  }

  /** Flipping bit t of an index below 2^n stays below 2^n exactly when
      t < n. */
  lemma FlipBelowIff(i: nat, t: nat, n: nat)
    requires i < Pow2(n)
    ensures Xor(i, Pow2(t)) < Pow2(n) <==> t < n
  {
    var j := Xor(i, Pow2(t));
    BitOfXor(i, Pow2(t), t);
    BitOfPow2(t, t);
    if t < n {
      Pow2Monotone(t + 1, n);
      XorBelow(i, Pow2(t), n);
    } else if Bit(i, t) == 1 {
      SetBitBelowWidth(i, t, n);
    } else if j < Pow2(n) {
      SetBitBelowWidth(j, t, n);
    }
  }

  /** Two indices below 2^n stay below 2^n under `^`. */
  lemma {:induction false} XorBelow(a: nat, b: nat, n: nat)
    requires a < Pow2(n) && b < Pow2(n)
    ensures Xor(a, b) < Pow2(n)
  {
    if n == 0 {
      assert a == 0 && b == 0;
    } else if a == 0 && b == 0 {
    } else {
      XorBelow(a / 2, b / 2, n - 1);
    }
  }
}
