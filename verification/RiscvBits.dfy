/** The macros of riscv.h as the compiler evaluates them, bit by bit, and the closed forms the model computes with. */
module RiscvBits {
  import opened Riscv

  // ---------------------------------------------------------------- 64-bit operators

  function Pow2(k: nat): (p: nat)
    ensures p > 0
  {
    if k == 0 then 1 else 2 * Pow2(k - 1)
  }

  /** x & y */
  function And(x: nat, y: nat): nat {
    if x == 0 || y == 0 then 0 else And(x / 2, y / 2) * 2 + (if x % 2 == 1 && y % 2 == 1 then 1 else 0)
  }

  /** x | y */
  function Or(x: nat, y: nat): nat
    decreases x + y
  {
    if x == 0 then y else if y == 0 then x else Or(x / 2, y / 2) * 2 + (if x % 2 == 1 || y % 2 == 1 then 1 else 0)
  }

  /** ~x on 64 bits */
  function Not(x: Word): Word {
    0xffff_ffff_ffff_ffff - x
  }

  /** x << k on 64 bits */
  function Shl(x: nat, k: nat): Word {
    x * Pow2(k) % 0x1_0000_0000_0000_0000
  }

  /** x >> k */
  function Shr(x: nat, k: nat): nat {
    Quotient(x, Pow2(k))
  }

  function Quotient(x: nat, d: nat): nat
    requires d > 0
  {
    x / d
  }

  // ---------------------------------------------------------------- masks

  lemma Twice(x: nat)
    ensures x == 2 * (x / 2) + x % 2
  {
  }

  /** One bit off both sides. */
  lemma AndStep(x: nat, y: nat)
    ensures And(x, y) == And(x / 2, y / 2) * 2 + (if x % 2 == 1 && y % 2 == 1 then 1 else 0)
  {
    if x == 0 || y == 0 {
      assert And(x / 2, y / 2) == 0;
    }
  }

  lemma OrStep(x: nat, y: nat)
    ensures Or(x, y) == Or(x / 2, y / 2) * 2 + (if x % 2 == 1 || y % 2 == 1 then 1 else 0)
  {
    if x == 0 || y == 0 {
      assert Or(x / 2, y / 2) == if x == 0 then y / 2 else x / 2;
    }
  }

  /** Dividing by twice as much, and what is left over. */
  lemma HalfMod(x: nat, p: nat)
    requires p > 0
    ensures x % (2 * p) == 2 * (x / 2 % p) + x % 2 && x / (2 * p) == x / 2 / p
  {
    var h := x / 2;
    assert x == h / p * (2 * p) + (2 * (h % p) + x % 2) by {
      assert h == h / p * p + h % p;
      assert h / p * (2 * p) == 2 * (h / p * p);
    }
    DivModOf(h / p, 2 * (h % p) + x % 2, 2 * p);
  }

  lemma {:induction false} AndLow(x: nat, k: nat)
    ensures And(x, Pow2(k) - 1) == x % Pow2(k)
    decreases k
  {
    if k > 0 {
      var p := Pow2(k - 1);
      AndStep(x, 2 * p - 1);
      assert (2 * p - 1) / 2 == p - 1 && (2 * p - 1) % 2 == 1;
      AndLow(x / 2, k - 1);
      HalfMod(x, p);
    }
  }

  lemma AndHighStep(x: nat, p: nat, q: nat)
    requires 0 < p <= q && And(x / 2, q - p) == x / 2 / p * p
    ensures And(x, 2 * q - 2 * p) == x / (2 * p) * (2 * p)
  {
    hide And;
    AndEven(x, q - p);
    assert 2 * (q - p) == 2 * q - 2 * p;
    HalfMod(x, p);
    TimesTwice(x / 2 / p, p);
  }

  lemma AndEven(x: nat, z: nat)
    ensures And(x, 2 * z) == And(x / 2, z) * 2
  {
    hide And;
    AndStep(x, 2 * z);
    assert 2 * z / 2 == z && 2 * z % 2 == 0;
  }

  lemma TimesTwice(a: nat, p: nat)
    ensures a * (2 * p) == a * p * 2
  {
  }

  /** A mask of the bits k .. m - 1. */
  lemma {:induction false} AndHigh(x: nat, k: nat, m: nat)
    requires k <= m && x < Pow2(m)
    ensures Pow2(k) <= Pow2(m) && And(x, Pow2(m) - Pow2(k)) == x / Pow2(k) * Pow2(k)
    decreases k
  {
    if k == 0 {
      AndLow(x, m);
      DivModOf(0, x, Pow2(m));
    } else {
      AndHigh(x / 2, k - 1, m - 1);
      AndHighStep(x, Pow2(k - 1), Pow2(m - 1));
    }
  }

  lemma {:induction false} AndBit(x: nat, k: nat)
    ensures And(x, Pow2(k)) == if x / Pow2(k) % 2 == 1 then Pow2(k) else 0
    decreases k
  {
    if k > 0 {
      AndBit(x / 2, k - 1);
      AndBitStep(x, Pow2(k - 1));
    } else {
      AndStep(x, 1);
      assert And(x / 2, 0) == 0;
    }
  }

  lemma AndBitStep(x: nat, p: nat)
    requires 0 < p && And(x / 2, p) == if x / 2 / p % 2 == 1 then p else 0
    ensures And(x, 2 * p) == if x / (2 * p) % 2 == 1 then 2 * p else 0
  {
    hide And;
    AndEven(x, p);
    HalfMod(x, p);
  }

  lemma {:induction false} OrBit(x: nat, k: nat)
    ensures Or(x, Pow2(k)) == if x / Pow2(k) % 2 == 1 then x else x + Pow2(k)
    decreases k
  {
    if k > 0 {
      OrBit(x / 2, k - 1);
      OrBitStep(x, Pow2(k - 1));
    } else {
      OrStep(x, 1);
      Twice(x);
      assert Or(x / 2, 0) == x / 2;
    }
  }

  lemma OrBitStep(x: nat, p: nat)
    requires 0 < p && Or(x / 2, p) == if x / 2 / p % 2 == 1 then x / 2 else x / 2 + p
    ensures Or(x, 2 * p) == if x / (2 * p) % 2 == 1 then x else x + 2 * p
  {
    OrStep(x, 2 * p);
    hide Or;
    Twice(x);
    HalfMod(x, p);
  }

  /** Or-ing in bits below the lowest set one adds them. */
  lemma {:induction false} OrBelow(q: nat, r: nat, k: nat)
    requires r < Pow2(k)
    ensures Or(q * Pow2(k), r) == q * Pow2(k) + r
    decreases k
  {
    if k > 0 {
      var p := Pow2(k - 1);
      OrBelow(q, r / 2, k - 1);
      OrEven(q * p, r);
      TimesTwice(q, p);
    } else {
      assert q * 1 == q;
    }
  }

  lemma OrEven(x: nat, r: nat)
    requires Or(x, r / 2) == x + r / 2
    ensures Or(2 * x, r) == 2 * x + r
  {
    OrStep(2 * x, r);
    Twice(r);
  }

  lemma {:induction false} OrCommutes(x: nat, y: nat)
    ensures Or(x, y) == Or(y, x)
    decreases x + y
  {
    if x > 0 && y > 0 {
      OrCommutes(x / 2, y / 2);
    }
  }

  lemma {:induction false} OrAssociates(x: nat, y: nat, z: nat)
    ensures Or(Or(x, y), z) == Or(x, Or(y, z))
    decreases x + y + z
  {
    if x > 0 && y > 0 && z > 0 {
      OrAssociates(x / 2, y / 2, z / 2);
      OrHalf(x, y);
      OrHalf(y, z);
      OrStep(Or(x, y), z);
      OrStep(x, Or(y, z));
    }
  }

  lemma OrHalf(x: nat, y: nat)
    ensures Or(x, y) / 2 == Or(x / 2, y / 2)
    ensures Or(x, y) % 2 == if x % 2 == 1 || y % 2 == 1 then 1 else 0
  {
    OrStep(x, y);
  }

  lemma {:induction false} PowSum(a: nat, b: nat)
    ensures Pow2(a + b) == Pow2(a) * Pow2(b)
  {
    if b > 0 {
      PowSum(a, b - 1);
    }
  }

  lemma SmallPowers()
    ensures Pow2(0) == 1 && Pow2(1) == 2 && Pow2(2) == 4 && Pow2(3) == 8 && Pow2(4) == 16 && Pow2(8) == 256
            && Pow2(9) == 512
    ensures Pow2(10) == 1024 && Pow2(12) == 4096
  {
  }

  lemma Powers()
    ensures Pow2(0) == 1 && Pow2(1) == 2 && Pow2(2) == 4 && Pow2(3) == 8 && Pow2(4) == 16 && Pow2(9) == 512
    ensures Pow2(10) == 1024 && Pow2(12) == 4096 && Pow2(21) == 0x20_0000 && Pow2(30) == 0x4000_0000
    ensures Pow2(38) == MAXVA && Pow2(64) == WORD_MODULUS
  {
    hide Pow2;
    SmallPowers();
    PowSum(10, 10);
    PowSum(20, 1);
    PowSum(20, 10);
    PowSum(30, 8);
    PowSum(30, 30);
    PowSum(60, 4);
  }

  // ---------------------------------------------------------------- the macros

  /** PGROUNDUP and PGROUNDDOWN. */
  lemma Rounding(a: Word)
    ensures And((a + 4096 - 1) % 0x1_0000_0000_0000_0000, Not(4096 - 1)) == PgRoundUp(a)
    ensures And(a, Not(4096 - 1)) == PgRoundDown(a)
  {
    Powers();
    hide And, Pow2;
    AndHigh((a + 4095) % 0x1_0000_0000_0000_0000, 12, 64);
    AndHigh(a, 12, 64);
  }

  /** PA2PTE, PTE2PA and PTE_FLAGS. */
  lemma Fields(w: Word)
    ensures Shl(Shr(w, 12), 10) == w / 4096 * 1024
    ensures Shl(Shr(w, 10), 12) == Pte2Pa(w)
    ensures And(w, 0x3ff) == PteFlags(w)
  {
    Powers();
    AndLow(w, 10);
    hide And, Pow2;
    assert w / 4096 < 0x10_0000_0000_0000;
  }

  /** PX at each level, and MAXVA. */
  lemma Indices(va: Word)
    ensures forall level :: 0 <= level <= 2 ==> And(Shr(va, 12 + 9 * level), 0x1ff) == Px(level, va / 4096)
    ensures Shl(1, 9 + 9 + 9 + 12 - 1) == MAXVA
  {
    Powers();
    hide And, Pow2;
    AndLow(Shr(va, 12), 9);
    AndLow(Shr(va, 21), 9);
    AndLow(Shr(va, 30), 9);
    DivTwice(va, 4096, 512);
    DivTwice(va, 4096, 0x4_0000);
  }

  lemma DivTwice(x: nat, a: nat, b: nat)
    requires a > 0 && b > 0
    ensures x / (a * b) == x / a / b
  {
    var q := x / a;
    var r := q % b * a + x % a;
    assert x == q / b * (a * b) + r by {
      assert x == q * a + x % a;
      assert q == q / b * b + q % b;
      assert q * a == q / b * b * a + q % b * a;
      assert q / b * b * a == q / b * (a * b);
    }
    DigitsBound(q % b, x % a, a, b);
    assert 0 < a * b;
    DivModOf(q / b, r, a * b);
  }

  lemma DigitsBound(l: nat, m: nat, a: nat, b: nat)
    requires l < b && m < a
    ensures l * a + m < a * b
  {
    assert l * a <= (b - 1) * a;
    assert (b - 1) * a + a == a * b;
  }

  /** The flag tests. */
  lemma FlagTests(w: Word)
    ensures And(w, PTE_V) != 0 <==> IsValid(w)
    ensures And(w, PTE_R) != 0 <==> IsReadable(w)
    ensures And(w, PTE_W) != 0 <==> IsWritable(w)
    ensures And(w, PTE_X) != 0 <==> IsExecutable(w)
    ensures And(w, PTE_U) != 0 <==> IsUser(w)
    ensures And(w, Or(Or(PTE_R, PTE_W), PTE_X)) != 0 <==> IsLeaf(w)
  {
    Powers();
    assert Or(Or(2, 4), 8) == 14;
    AndStep(w, 14);
    AndLow(w / 2, 3);
    hide And, Or, Pow2;
    AndBit(w, 0);
    AndBit(w, 1);
    AndBit(w, 2);
    AndBit(w, 3);
    AndBit(w, 4);
  }

  /** PA2PTE(pa) | perm | PTE_V, as walk and mappages store it. */
  lemma StoredEntry(pa: Word, perm: Word)
    requires perm < 1024 && pa / 4096 < MAXPAGES
    ensures Or(Or(Shl(Shr(pa, 12), 10), perm), PTE_V) == MakePte(pa / 4096, perm)
  {
    Powers();
    Fields(pa);
    hide Or, Pow2, Shl, Shr, MakePte;
    var q := pa / 4096;
    OrBelow(q, perm, 10);
    OrLowest(q * 1024 + perm);
    SetLowest(q, perm);
  }

  lemma OrLowest(w: nat)
    ensures Or(w, 1) == if w % 2 == 1 then w else w + 1
  {
    OrBit(w, 0);
    DivModOf(w, 0, 1);
  }

  lemma SetLowest(q: nat, perm: Word)
    requires q < MAXPAGES && perm < 1024
    ensures var w := q * 1024 + perm;
            MakePte(q, perm) == if w % 2 == 1 then w else w + 1
  {
    BitAbove(q, perm, 512, 2);
  }

  /** PTE_R | PTE_U | perm. */
  lemma GrownPermission(perm: Perm)
    ensures Or(Or(PTE_R, PTE_U), perm) == WithReadUser(perm)
  {
    Powers();
    hide Or, Pow2;
    OrCommutes(PTE_R, PTE_U);
    OrAssociates(PTE_U, PTE_R, perm);
    OrCommutes(PTE_R, perm);
    OrBit(perm, 1);
    OrCommutes(PTE_U, Or(perm, PTE_R));
    OrBit(Or(perm, PTE_R), 4);
  }
}
