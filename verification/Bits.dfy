/** Unsigned words as numbers, and the bitwise operations on them. */
module Bits {
  import opened Common

  function Pow2(k: nat): (p: nat)
    ensures p > 0
  {
    if k == 0 then 1 else 2 * Pow2(k - 1)
  }

  /** The word shifted right by `k` bits. */
  function High(x: nat, k: nat): nat {
    if k == 0 then x else High(x / 2, k - 1)
  }

  function Bit(x: nat, k: nat): bool {
    High(x, k) % 2 == 1
  }

  function Xor(a: nat, b: nat): nat
    decreases a + b
  {
    if a == 0 && b == 0 then 0 else 2 * Xor(a / 2, b / 2) + (if a % 2 == b % 2 then 0 else 1)
  }

  function Or(a: nat, b: nat): nat
    decreases a + b
  {
    if a == 0 && b == 0 then 0 else 2 * Or(a / 2, b / 2) + (if a % 2 == 0 && b % 2 == 0 then 0 else 1)
  }

  function ShiftLeft(x: nat, k: nat): nat {
    if k == 0 then x else 2 * ShiftLeft(x, k - 1)
  }

  lemma ShiftByByte(x: nat, k: nat)
    ensures ShiftLeft(x, k + 8) == 256 * ShiftLeft(x, k)
  {
    assert ShiftLeft(x, k + 4) == 16 * ShiftLeft(x, k) by {
      assert ShiftLeft(x, k + 2) == 2 * ShiftLeft(x, k + 1) == 4 * ShiftLeft(x, k);
    }
    assert ShiftLeft(x, k + 6) == 2 * ShiftLeft(x, k + 5) == 4 * ShiftLeft(x, k + 4);
  }

  /** Exclusive or compares bit by bit. */
  lemma {:induction false} XorBit(a: nat, b: nat, k: nat)
    ensures Bit(Xor(a, b), k) <==> Bit(a, k) != Bit(b, k)
    decreases k
  {
    if k > 0 { XorBit(a / 2, b / 2, k - 1); }
  }

  lemma {:induction false} OrBit(a: nat, b: nat, k: nat)
    ensures Bit(Or(a, b), k) <==> Bit(a, k) || Bit(b, k)
    decreases k
  {
    if k > 0 { OrBit(a / 2, b / 2, k - 1); }
  }

  /** Words with the same bits are the same. */
  lemma {:induction false} SameBits(a: nat, b: nat)
    requires forall k: nat :: Bit(a, k) == Bit(b, k)
    ensures a == b
    decreases a + b
  {
    if a != 0 || b != 0 {
      assert Bit(a, 0) == Bit(b, 0);
      forall k: nat ensures Bit(a / 2, k) == Bit(b / 2, k) { assert Bit(a, k + 1) == Bit(b, k + 1); }
      SameBits(a / 2, b / 2);
    }
  }

  lemma {:induction false} XorZeroIff(a: nat, b: nat)
    ensures Xor(a, b) == 0 <==> a == b
    decreases a + b
  {
    if a != 0 || b != 0 { XorZeroIff(a / 2, b / 2); }
  }

  lemma XorCommutes(a: nat, b: nat)
    ensures Xor(a, b) == Xor(b, a)
  {
    forall k: nat ensures Bit(Xor(a, b), k) == Bit(Xor(b, a), k) {
      XorBit(a, b, k);
      XorBit(b, a, k);
    }
    SameBits(Xor(a, b), Xor(b, a));
  }

  lemma XorAssociates(a: nat, b: nat, c: nat)
    ensures Xor(Xor(a, b), c) == Xor(a, Xor(b, c))
  {
    forall k: nat ensures Bit(Xor(Xor(a, b), c), k) == Bit(Xor(a, Xor(b, c)), k) {
      XorBit(a, b, k);
      XorBit(Xor(a, b), c, k);
      XorBit(b, c, k);
      XorBit(a, Xor(b, c), k);
    }
    SameBits(Xor(Xor(a, b), c), Xor(a, Xor(b, c)));
  }

  lemma {:induction false} XorFits(a: nat, b: nat, k: nat)
    requires a < Pow2(k) && b < Pow2(k)
    ensures Xor(a, b) < Pow2(k)
    decreases k
  {
    if k > 0 && (a != 0 || b != 0) { XorFits(a / 2, b / 2, k - 1); }
  }

  lemma {:induction false} OrZero(b: nat)
    ensures Or(0, b) == b
  {
    if b > 0 { OrZero(b / 2); }
  }

  /** Or of a word and one shifted past it puts the two side by side. */
  lemma {:induction false} OrSideBySide(a: nat, b: nat, k: nat)
    requires a < Pow2(k)
    ensures Or(a, ShiftLeft(b, k)) == a + ShiftLeft(b, k)
    decreases k
  {
    if k == 0 {
      OrZero(b);
    } else {
      OrSideBySide(a / 2, b, k - 1);
      var shifted := ShiftLeft(b, k);
      assert shifted / 2 == ShiftLeft(b, k - 1) && shifted % 2 == 0;
    }
  }

  /** The highest bit in which two words differ. */
  ghost predicate TopDifference(a: nat, b: nat, k: nat) {
    High(a, k + 1) == High(b, k + 1) && Bit(a, k) != Bit(b, k)
  }

  lemma {:induction false} SomeTopDifference(a: nat, b: nat) returns (k: nat)
    requires a != b
    ensures TopDifference(a, b, k)
    decreases a + b
  {
    if a / 2 == b / 2 {
      k := 0;
      assert High(a, 1) == High(a / 2, 0) && High(b, 1) == High(b / 2, 0);
    } else {
      var j := SomeTopDifference(a / 2, b / 2);
      k := j + 1;
    }
  }

  /** Which of two words is nearer to `t` is decided by the highest bit in which they differ. */
  lemma {:induction false} NearerIffAgrees(t: nat, a: nat, b: nat, k: nat)
    requires TopDifference(a, b, k)
    ensures Xor(t, a) < Xor(t, b) <==> Bit(a, k) == Bit(t, k)
    decreases k
  {
    XorHalves(t, a);
    XorHalves(t, b);
    if k == 0 {
      assert High(a, 1) == High(a / 2, 0) && High(b, 1) == High(b / 2, 0);
    } else {
      NearerIffAgrees(t / 2, a / 2, b / 2, k - 1);
      assert a / 2 != b / 2;
      XorInjective(t / 2, a / 2, b / 2);
    }
  }

  lemma XorHalves(a: nat, b: nat)
    ensures Xor(a, b) == 2 * Xor(a / 2, b / 2) + (if a % 2 == b % 2 then 0 else 1)
  {
  }

  lemma {:induction false} XorInjective(t: nat, a: nat, b: nat)
    ensures Xor(t, a) == Xor(t, b) <==> a == b
    decreases t + a + b
  {
    if t != 0 || a != 0 || b != 0 {
      XorHalves(t, a);
      XorHalves(t, b);
      XorInjective(t / 2, a / 2, b / 2);
    }
  }
}
