/** Bitwise operations on unbounded natural numbers, as JavaScript's BigInt provides them. */
module Bits {

  /** Bit k of n. */
  predicate Bit(n: nat, k: nat)
  {
    if k == 0 then n % 2 == 1 else Bit(n / 2, k - 1)
  }

  function Or(a: nat, b: nat): nat
    decreases a + b
  {
    if a == 0 && b == 0 then 0
    else 2 * Or(a / 2, b / 2) + if a % 2 == 1 || b % 2 == 1 then 1 else 0
  }

  function And(a: nat, b: nat): nat
    decreases a + b
  {
    if a == 0 && b == 0 then 0
    else 2 * And(a / 2, b / 2) + if a % 2 == 1 && b % 2 == 1 then 1 else 0
  }

  function Pow2(k: nat): (p: nat)
    ensures p > 0
  {
    if k == 0 then 1 else 2 * Pow2(k - 1)
  }

  /** n << 1. */
  function ShiftLeft(n: nat): nat
  {
    2 * n
  }

  lemma {:induction false} OrBit(a: nat, b: nat, k: nat)
    ensures Bit(Or(a, b), k) <==> Bit(a, k) || Bit(b, k)
    decreases k
  {
    OrHalves(a, b);
    hide Or;
    if k > 0 {
      OrBit(a / 2, b / 2, k - 1);
    }
  }

  lemma {:induction false} OrHalves(a: nat, b: nat)
    ensures Or(a, b) / 2 == Or(a / 2, b / 2)
    ensures Or(a, b) % 2 == 1 <==> a % 2 == 1 || b % 2 == 1
  {
    if a == 0 && b == 0 {
      assert a / 2 == 0 && b / 2 == 0;
    }
  }

  lemma {:induction false} AndBit(a: nat, b: nat, k: nat)
    ensures Bit(And(a, b), k) <==> Bit(a, k) && Bit(b, k)
    decreases k
  {
    AndHalves(a, b);
    hide And;
    if k > 0 {
      AndBit(a / 2, b / 2, k - 1);
    }
  }

  lemma {:induction false} AndHalves(a: nat, b: nat)
    ensures And(a, b) / 2 == And(a / 2, b / 2)
    ensures And(a, b) % 2 == 1 <==> a % 2 == 1 && b % 2 == 1
  {
    if a == 0 && b == 0 {
      assert a / 2 == 0 && b / 2 == 0;
    }
  }

  lemma {:induction false} ZeroBit(k: nat)
    ensures !Bit(0, k)
    decreases k
  {
    if k > 0 {
      ZeroBit(k - 1);
    }
  }

  lemma {:induction false} ShiftBit(n: nat, k: nat)
    ensures Bit(ShiftLeft(n), k) <==> k > 0 && Bit(n, k - 1)
  {
    assert ShiftLeft(n) / 2 == n;
  }

  lemma {:induction false} PowBit(k: nat, j: nat)
    ensures Bit(Pow2(k), j) <==> j == k
    decreases j
  {
    if k == 0 {
      if j > 0 {
        ZeroBit(j - 1);
      }
    } else if j > 0 {
      assert Pow2(k) / 2 == Pow2(k - 1);
      PowBit(k - 1, j - 1);
    }
  }

  /** The mask of the n lowest bits. */
  lemma {:induction false} MaskBit(n: nat, k: nat)
    ensures Bit(Pow2(n) - 1, k) <==> k < n
    decreases k
  {
    if n == 0 {
      ZeroBit(k);
    } else if k > 0 {
      assert (Pow2(n) - 1) / 2 == Pow2(n - 1) - 1;
      MaskBit(n - 1, k - 1);
    }
  }

  /** A number without bits is zero. */
  lemma {:induction false} SomeBit(n: nat) returns (k: nat)
    requires n != 0
    ensures Bit(n, k)
    decreases n
  {
    if n % 2 == 1 {
      k := 0;
    } else {
      var j := SomeBit(n / 2);
      k := j + 1;
    }
  }

  /** Testing one bit. */
  lemma {:induction false} TestBit(n: nat, k: nat)
    ensures And(n, Pow2(k)) != 0 <==> Bit(n, k)
  {
    AndBit(n, Pow2(k), k);
    PowBit(k, k);
    if And(n, Pow2(k)) != 0 {
      var j := SomeBit(And(n, Pow2(k)));
      AndBit(n, Pow2(k), j);
      PowBit(k, j);
    } else {
      ZeroBit(k);
    }
  }

  /** One step of the depth computation: shift by one, keep 64 bits, and join. */
  function Advance(target: nat, source: nat): nat
  {
    Or(target, And(ShiftLeft(source), Pow2(64) - 1))
  }

  lemma {:induction false} AdvanceBit(target: nat, source: nat, k: nat)
    ensures Bit(Advance(target, source), k) <==> Bit(target, k) || (0 < k < 64 && Bit(source, k - 1))
  {
    OrBit(target, And(ShiftLeft(source), Pow2(64) - 1), k);
    AndBit(ShiftLeft(source), Pow2(64) - 1, k);
    MaskBit(64, k);
    ShiftBit(source, k);
  }
}
