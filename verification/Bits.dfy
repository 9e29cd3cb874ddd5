/** 32-bit registers as numbers, with the bitwise operators the driver uses. */
module Bits {
  import opened Words

  /** Is bit `k` set? */
  predicate Bit(x: nat, k: nat)
    decreases k
  {
    if k == 0 then x % 2 == 1 else Bit(x / 2, k - 1)
  }

  /** `x & y` */
  function And(x: u32, y: u32): u32 {
    BitAnd(x, y)
  }

  /** `x & ~y` */
  function AndNot(x: u32, y: u32): u32 {
    x - BitAnd(x, y)
  }

  /** `&` works on halves and last bits separately. */
  lemma AndHalves(x: nat, y: nat)
    ensures BitAnd(x, y) / 2 == BitAnd(x / 2, y / 2)
    ensures BitAnd(x, y) % 2 == if x % 2 == 1 && y % 2 == 1 then 1 else 0
  {
    BitAndHalves(x, y);
    assert (x % 2) * (y % 2) == if x % 2 == 1 && y % 2 == 1 then 1 else 0;
  }

  lemma {:induction false} OrFits(x: nat, y: nat, k: nat)
    requires x < Pow2(k) && y < Pow2(k)
    ensures x + y - BitAnd(x, y) < Pow2(k)
  {
    AndHalves(x, y);
    if k == 0 {
    } else {
      OrFits(x / 2, y / 2, k - 1);
    }
  }

  lemma Pow2At32()
    ensures Pow2(32) == TWO32
  {
    hide Pow2;
    Pow2AtSmall();
    Pow2Add(4, 4);
    Pow2Add(8, 8);
    Pow2Add(16, 16);
  }

  /** `x | y`, which is the sum with the common bits counted once. */
  function Or(x: u32, y: u32): u32 {
    Pow2At32();
    OrFits(x, y, 32);
    x + y - BitAnd(x, y)
  }

  lemma {:induction false} BitOfAnd(x: nat, y: nat, k: nat)
    ensures Bit(BitAnd(x, y), k) <==> Bit(x, k) && Bit(y, k)
    decreases k
  {
    hide BitAnd;
    AndHalves(x, y);
    if k == 0 {
    } else {
      BitOfAnd(x / 2, y / 2, k - 1);
    }
  }

  lemma {:induction false} ZeroHasNoBits(k: nat)
    ensures !Bit(0, k)
    decreases k
  {
    if k == 0 {
    } else {
      ZeroHasNoBits(k - 1);
    }
  }

  lemma {:induction false} BitOfAndNot(x: nat, y: nat, k: nat)
    ensures Bit(x - BitAnd(x, y), k) <==> Bit(x, k) && !Bit(y, k)
    decreases k
  {
    hide BitAnd;
    AndHalves(x, y);
    if k == 0 {
    } else {
      assert (x - BitAnd(x, y)) / 2 == x / 2 - BitAnd(x / 2, y / 2);
      BitOfAndNot(x / 2, y / 2, k - 1);
    }
  }

  lemma {:induction false} BitOfOr(x: nat, y: nat, k: nat)
    ensures Bit(x + y - BitAnd(x, y), k) <==> Bit(x, k) || Bit(y, k)
    decreases k
  {
    hide BitAnd;
    AndHalves(x, y);
    if k == 0 {
    } else {
      assert (x + y - BitAnd(x, y)) / 2 == x / 2 + y / 2 - BitAnd(x / 2, y / 2);
      BitOfOr(x / 2, y / 2, k - 1);
    }
  }

  lemma {:induction false} BitOfPow2(j: nat, k: nat)
    ensures Bit(Pow2(j), k) <==> j == k
    decreases k
  {
    if j == 0 {
      ZeroHasNoBits(k - if k > 0 then 1 else 0);
    } else if k > 0 {
      BitOfPow2(j - 1, k - 1);
    }
  }

  /** Testing a one-bit mask tests that bit. */
  lemma {:induction false} MaskTestsBit(x: nat, k: nat)
    ensures BitAnd(x, Pow2(k)) != 0 <==> Bit(x, k)
    decreases k
  {
    hide BitAnd;
    AndHalves(x, Pow2(k));
    BitAndHalves(x, Pow2(k));
    if k == 0 {
    } else {
      MaskTestsBit(x / 2, k - 1);
    }
  }

  /** Equal bits, equal numbers. */
  lemma {:induction false} SameBits(x: nat, y: nat)
    requires forall k: nat :: Bit(x, k) <==> Bit(y, k)
    ensures x == y
    decreases x + y
  {
    assert Bit(x, 0) <==> Bit(y, 0);
    forall k: nat ensures Bit(x / 2, k) <==> Bit(y / 2, k) {
      assert Bit(x, k + 1) <==> Bit(y, k + 1);
    }
    if x / 2 + y / 2 < x + y {
      SameBits(x / 2, y / 2);
    }
  }
}
