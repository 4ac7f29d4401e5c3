/** Powers of two and bitwise exclusive-or on naturals. */
module Arith {

  function Pow2(k: nat): (p: nat)
    ensures p >= 1
  {
    if k == 0 then 1 else 2 * Pow2(k - 1)
  }

  lemma {:induction false} Pow2Monotone(j: nat, k: nat)
    requires j <= k
    ensures Pow2(j) <= Pow2(k)
    decreases k
  {
    if j < k { Pow2Monotone(j, k - 1); }
  }

  /** Exclusive or, bit by bit from the low end. */
  function Xor(a: nat, b: nat): nat
    decreases a + b
  {
    if a == 0 && b == 0 then 0
    else (a % 2 + b % 2) % 2 + 2 * Xor(a / 2, b / 2)
  }

  lemma {:induction false} XorZero(a: nat)
    ensures Xor(a, 0) == a
  {
    if a > 0 { XorZero(a / 2); }
  }

  /** The index of a block's sibling: flip the lowest bit. */
  function Sibling(i: nat): (j: nat)
    ensures j != i && j / 2 == i / 2
  {
    if i % 2 == 0 then i + 1 else i - 1
  }

  /** i shifted left by k bits, that is i * 2^k. */
  function Shl(i: nat, k: nat): nat
    decreases k
  {
    if k == 0 then i else Shl(2 * i, k - 1)
  }

  lemma {:induction false} ShlZero(k: nat)
    ensures Shl(0, k) == 0
  {
    if k > 0 { ShlZero(k - 1); }
  }

  lemma {:induction false} ShlDouble(i: nat, k: nat)
    requires k > 0
    ensures Shl(i, k) == 2 * Shl(i, k - 1)
    decreases k
  {
    if k > 1 { ShlDouble(2 * i, k - 1); }
  }

  lemma {:induction false} ShlSucc(i: nat, k: nat)
    ensures Shl(i + 1, k) == Shl(i, k) + Pow2(k)
    decreases k
  {
    if k > 0 { ShlSucc(2 * i, k - 1); ShlSucc(2 * i + 1, k - 1); }
  }

  lemma {:induction false} ShlInjective(i: nat, j: nat, k: nat)
    requires Shl(i, k) == Shl(j, k)
    ensures i == j
    decreases k
  {
    if k > 0 { ShlInjective(2 * i, 2 * j, k - 1); }
  }

  /** On a multiple of 2^k, flipping bit k moves to the sibling multiple. */
  lemma {:induction false} XorSibling(i: nat, k: nat)
    ensures Xor(Shl(i, k), Pow2(k)) == Shl(Sibling(i), k)
    decreases k
  {
    if k == 0 {
      XorZero(i / 2);
    } else {
      XorSibling(i, k - 1);
      ShlDouble(i, k);
      ShlDouble(Sibling(i), k);
      XorDouble(Shl(i, k - 1), Pow2(k - 1));
    }
  }

  lemma XorDouble(a: nat, b: nat)
    ensures Xor(2 * a, 2 * b) == 2 * Xor(a, b)
  {
  }

  /** Flipping one bit adds its weight or takes it away. */
  lemma {:induction false} XorToggle(a: nat, k: nat)
    ensures Xor(a, Pow2(k)) == a + Pow2(k) || Xor(a, Pow2(k)) == a - Pow2(k)
    decreases k
  {
    if k == 0 {
      XorZero(a / 2);
    } else {
      XorToggle(a / 2, k - 1);
      assert Pow2(k) / 2 == Pow2(k - 1) && Pow2(k) % 2 == 0;
    }
  }
}
