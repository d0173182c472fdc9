// Shifts and bitwise "or" on unbounded naturals.
module Bits {

  function Pow2(k: nat): (p: nat)
    ensures p >= 1
  {
    if k == 0 then 1 else 2 * Pow2(k - 1)
  }

  function ShiftLeft(x: nat, k: nat): nat {
    if k == 0 then x else 2 * ShiftLeft(x, k - 1)
  }

  function Or(a: nat, b: nat): nat
    decreases a + b
  {
    if a == 0 && b == 0 then 0
    else (if a % 2 == 1 || b % 2 == 1 then 1 else 0) + 2 * Or(a / 2, b / 2)
  }

  lemma {:induction false} OrZero(a: nat)
    ensures Or(a, 0) == a && Or(0, a) == a
    decreases a
  {
    if a > 0 {
      OrZero(a / 2);
    }
  }

  // Or-ing in a number shifted past the bits in use is addition.
  lemma {:induction false} OrDisjoint(a: nat, x: nat, k: nat)
    requires a < Pow2(k)
    ensures Or(a, ShiftLeft(x, k)) == a + ShiftLeft(x, k)
    decreases k
  {
    if k == 0 {
      OrZero(x);
    } else {
      OrDisjoint(a / 2, x, k - 1);
    }
  }

  // Shifting by seven more places multiplies by 128.
  lemma Pow2Seven(k: nat)
    ensures Pow2(k + 7) == 128 * Pow2(k)
  {
    assert Pow2(k + 7) == 2 * Pow2(k + 6) && Pow2(k + 6) == 2 * Pow2(k + 5) && Pow2(k + 5) == 2 * Pow2(k + 4);
    assert Pow2(k + 4) == 2 * Pow2(k + 3) && Pow2(k + 3) == 2 * Pow2(k + 2) && Pow2(k + 2) == 2 * Pow2(k + 1);
    assert Pow2(k + 1) == 2 * Pow2(k);
  }

  lemma {:induction false} ShiftSeven(x: nat, k: nat)
    ensures ShiftLeft(x, k + 7) == ShiftLeft(128 * x, k)
    decreases k
  {
    if k == 0 {
      assert ShiftLeft(128 * x, 0) == 128 * x && ShiftLeft(x, 0) == x && ShiftLeft(x, 1) == 2 * ShiftLeft(x, 0);
      assert ShiftLeft(x, 7) == 2 * ShiftLeft(x, 6) && ShiftLeft(x, 6) == 2 * ShiftLeft(x, 5);
      assert ShiftLeft(x, 5) == 2 * ShiftLeft(x, 4) && ShiftLeft(x, 4) == 2 * ShiftLeft(x, 3);
      assert ShiftLeft(x, 3) == 2 * ShiftLeft(x, 2) && ShiftLeft(x, 2) == 2 * ShiftLeft(x, 1);
    } else {
      ShiftSeven(x, k - 1);
    }
  }

  lemma {:induction false} ShiftSum(x: nat, y: nat, k: nat)
    ensures ShiftLeft(x + y, k) == ShiftLeft(x, k) + ShiftLeft(y, k)
    decreases k
  {
    if k > 0 {
      ShiftSum(x, y, k - 1);
    }
  }

  lemma {:induction false} ShiftBelow(value: nat, x: nat, k: nat)
    requires value < Pow2(k) && x < 128
    ensures value + ShiftLeft(x, k) < Pow2(k + 7)
    decreases k
  {
    Pow2Seven(k);
    if k > 0 {
      Pow2Seven(k - 1);
      ShiftBelow(value / 2, x, k - 1);
    }
  }
}
