/**
 * Python's bitwise operators on non-negative integers (`|`, `&`, `<<`),
 * defined bit by bit, with the facts the 24-bit decoder relies on.
 */
module Bits {
  import opened Arith

  function Pow2(k: nat): (r: nat)
    ensures r >= 1
  {
    if k == 0 then 1 else 2 * Pow2(k - 1)
  }

  /** `a | b`: it keeps every bit of either operand, so it is at least each and at most their sum. */
  function Or(a: nat, b: nat): (r: nat)
    ensures a <= r && b <= r && r <= a + b
    decreases a + b
  {
    if a == 0 && b == 0 then 0
    else (if a % 2 == 1 || b % 2 == 1 then 1 else 0) + 2 * Or(a / 2, b / 2)
  }

  /** `a & b`: it keeps only bits set in both operands, so it is at most each. */
  function And(a: nat, b: nat): (r: nat)
    ensures r <= a && r <= b
    decreases a + b
  {
    if a == 0 || b == 0 then 0
    else (if a % 2 == 1 && b % 2 == 1 then 1 else 0) + 2 * And(a / 2, b / 2)
  }

  /** `a << k`: the k low bits are clear and shifting back down gives a again. */
  function Shl(a: nat, k: nat): (r: nat)
    ensures r % Pow2(k) == 0 && r / Pow2(k) == a
  {
    DivModUnique(a * Pow2(k), Pow2(k), a, 0);
    a * Pow2(k)
  }

  /** Bit k of a: 0 or 1, and 0 above the highest set bit. */
  function Bit(a: nat, k: nat): (b: nat)
    ensures b < 2
    ensures a < Pow2(k) ==> b == 0
  {
    if k == 0 then a % 2 else Bit(a / 2, k - 1)
  }

  lemma {:induction false} OrZero(b: nat)
    ensures Or(0, b) == b
    decreases b
  {
    if b != 0 {
      OrZero(b / 2);
    }
  }

  /** Or-ing a value into bits that a shifted value leaves clear is addition. */
  lemma {:induction false} OrDisjoint(a: nat, b: nat, k: nat)
    requires a < Pow2(k)
    ensures Or(a, Shl(b, k)) == a + Shl(b, k)
  {
    if k == 0 {
      OrZero(b);
    } else {
      var hi := b * Pow2(k);
      assert hi == 2 * (b * Pow2(k - 1));
      assert hi % 2 == 0 && hi / 2 == b * Pow2(k - 1);
      OrDisjoint(a / 2, b, k - 1);
    }
  }

  /** Masking with a single power of two tests that bit. */
  lemma {:induction false} AndPow2(a: nat, k: nat)
    ensures And(a, Pow2(k)) != 0 <==> Bit(a, k) == 1
  {
    if k == 0 {
      assert And(a / 2, 0) == 0;
    } else {
      assert Pow2(k) % 2 == 0 && Pow2(k) / 2 == Pow2(k - 1);
      AndPow2(a / 2, k - 1);
    }
  }

  /** For a value of k+1 bits, bit k is set exactly when the value is at least 2^k. */
  lemma {:induction false} TopBit(a: nat, k: nat)
    requires a < Pow2(k + 1)
    ensures Bit(a, k) == 1 <==> a >= Pow2(k)
  {
    if k > 0 {
      TopBit(a / 2, k - 1);
    }
  }
}
