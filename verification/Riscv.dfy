/** The address and page-table-entry arithmetic of riscv.h and memlayout.h, on 64-bit words.
    Module RiscvBits proves these closed forms equal to the shift-and-mask macros. */
module Riscv {
  const WORD_MODULUS := 0x1_0000_0000_0000_0000

  type Word = w: nat | w < WORD_MODULUS
  type Byte = b: nat | b < 256

  /** The flag bits of an entry. */
  type Perm = w: nat | w < 1024

  const PGSIZE := 4096
  const SLOTS := 512                   // entries in one page-table page
  const MAXVA := 0x40_0000_0000        // 1 << 38
  const MAXVPN := 0x400_0000           // pages below MAXVA
  const NVPN := 0x800_0000             // pages a three-level tree can name
  const MAXPAGES := 0x1000_0000_0000   // pages a 44-bit page number can name

  const PTE_V := 1
  const PTE_R := 2
  const PTE_W := 4
  const PTE_X := 8
  const PTE_U := 16

  const UART0 := 0x1000_0000
  const KERNBASE := 0x8000_0000
  const PHYSTOP := KERNBASE + 128 * 1024 * 1024
  const TRAMPOLINE := MAXVA - PGSIZE
  const TRAPFRAME := TRAMPOLINE - PGSIZE
  const IPC := TRAPFRAME - PGSIZE
  const VUART := IPC - PGSIZE

  function PgRoundUp(sz: Word): Word {
    (sz + 4095) % 0x1_0000_0000_0000_0000 / 4096 * 4096
  }

  function PgRoundDown(a: Word): Word {
    a / 4096 * 4096
  }

  /** PTE2PA. */
  function Pte2Pa(pte: Word): Word {
    pte / 1024 * 4096 % 0x1_0000_0000_0000_0000
  }

  /** The page number an entry names. */
  function Ppn(pte: Word): nat {
    pte / 1024
  }

  function PteFlags(pte: Word): Word {
    pte % 1024
  }

  predicate IsValid(pte: Word) { pte % 2 == 1 }
  predicate IsReadable(pte: Word) { pte / 2 % 2 == 1 }
  predicate IsWritable(pte: Word) { pte / 4 % 2 == 1 }
  predicate IsExecutable(pte: Word) { pte / 8 % 2 == 1 }
  predicate IsUser(pte: Word) { pte / 16 % 2 == 1 }

  /** Whether any of R, W, X is set. */
  predicate IsLeaf(pte: Word) { pte / 2 % 8 != 0 }

  /** PA2PTE(ppn << 12) | perm | PTE_V, for a permission word within the ten flag bits. */
  function MakePte(ppn: nat, perm: Word): Word
    requires ppn < MAXPAGES && perm < 1024
  {
    ppn * 1024 + perm / 2 * 2 + 1
  }

  /** PTE_R | PTE_U | perm. */
  function WithReadUser(perm: Perm): Perm {
    SetBit(SetBit(perm, PTE_R), PTE_U)
  }

  /** perm with the bit of weight b set, b one of the named flags. */
  function SetBit(perm: Perm, b: nat): Perm
    requires b in {PTE_V, PTE_R, PTE_W, PTE_X, PTE_U}
  {
    if perm / b % 2 == 1 then perm else perm + b
  }

  /** PX(level, va), for the page number of va. */
  function Px(level: nat, vpn: nat): nat {
    if level == 0 then vpn % 512 else if level == 1 then vpn / 512 % 512 else vpn / 0x4_0000 % 512
  }

  lemma PxRange(level: nat, vpn: nat)
    ensures Px(level, vpn) < 512
  {
  }

  /** An entry gives back the page number and the flags it was made from, with V set. */
  lemma MakePteFields(ppn: nat, perm: Word)
    requires ppn < MAXPAGES && perm < 1024
    ensures var w := MakePte(ppn, perm);
            IsValid(w) && Ppn(w) == ppn && PteFlags(w) == perm / 2 * 2 + 1 && Pte2Pa(w) == ppn * 4096
  {
    var w := MakePte(ppn, perm);
    var h := perm / 2;
    assert w == ppn * 1024 + (h * 2 + 1) && h * 2 + 1 < 1024;
    DivModOf(ppn, h * 2 + 1, 1024);
    assert w == (ppn * 512 + h) * 2 + 1;
    DivModOf(ppn * 512 + h, 1, 2);
  }

  /** The R, W, X and U bits of an entry are those of the permission word. */
  lemma MakePteBits(ppn: nat, perm: Word)
    requires ppn < MAXPAGES && perm < 1024
    ensures var w := MakePte(ppn, perm);
            && IsLeaf(w) == IsLeaf(perm) && IsUser(w) == IsUser(perm) && IsReadable(w) == IsReadable(perm)
            && IsWritable(w) == IsWritable(perm) && IsExecutable(w) == IsExecutable(perm)
  {
    var w := MakePte(ppn, perm);
    var h := perm / 2;
    DivModOf(ppn * 512 + h, 1, 2);
    assert w / 2 == ppn * 512 + h;
    BitAbove(ppn, h, 64, 8);
    BitAbove(ppn, h, 256, 2);
    Halves(w);
    Halves(perm);
    var h2, h4, h8 := perm / 4, perm / 8, perm / 16;
    assert w / 4 == ppn * 256 + h2 by { Half(w / 2, ppn * 256, h); }
    assert w / 8 == ppn * 128 + h4 by { Half(w / 4, ppn * 128, h2); }
    assert w / 16 == ppn * 64 + h8 by { Half(w / 8, ppn * 64, h4); }
    BitAbove(ppn, h2, 128, 2);
    BitAbove(ppn, h4, 64, 2);
    BitAbove(ppn, h8, 32, 2);
  }

  /** Or-ing R and U in makes a leaf permission and leaves W and X alone. */
  lemma ReadUserBits(perm: Perm)
    ensures var p := WithReadUser(perm);
            IsLeaf(p) && IsReadable(p) && IsUser(p) && IsWritable(p) == IsWritable(perm)
                && IsExecutable(p) == IsExecutable(perm)
  {
    var r := SetBit(perm, PTE_R);
    SetReadBits(perm);
    SetUserBits(r);
  }

  /** Adding k at a bit position d: the bits from there on count k more. */
  lemma AddAt(x: nat, k: nat, d: nat)
    requires 0 < d
    ensures (x + k * d) / d == x / d + k
  {
    DivModOf(x / d + k, x % d, d);
    assert (x / d + k) * d + x % d == x + k * d by { assert (x / d + k) * d == x / d * d + k * d; }
  }

  lemma SetReadBits(x: Perm)
    ensures var r := SetBit(x, PTE_R);
            IsReadable(r) && IsWritable(r) == IsWritable(x) && IsExecutable(r) == IsExecutable(x)
  {
    var r := SetBit(x, PTE_R);
    if r != x {
      AddAt(x, 1, 2);
      Halves(r);
      Halves(x);
      assert r / 4 == x / 4;
    }
  }

  lemma SetUserBits(x: Perm)
    requires IsReadable(x)
    ensures var p := SetBit(x, PTE_U);
            IsUser(p) && IsReadable(p) && IsLeaf(p) && IsWritable(p) == IsWritable(x)
                && IsExecutable(p) == IsExecutable(x)
  {
    var p := SetBit(x, PTE_U);
    if p != x {
      AddAt(x, 8, 2);
      AddAt(x, 4, 4);
      AddAt(x, 2, 8);
      AddAt(x, 1, 16);
      SameParity(x / 2, 4);
      SameParity(x / 4, 2);
      SameParity(x / 8, 1);
      NextParity(x / 16);
    }
    ReadableIsLeaf(p);
  }

  lemma SameParity(y: nat, h: nat)
    ensures (y + 2 * h) % 2 == y % 2
  {
  }

  lemma NextParity(y: nat)
    ensures (y + 1) % 2 == 1 - y % 2
  {
  }

  lemma ReadableIsLeaf(x: Word)
    requires IsReadable(x)
    ensures IsLeaf(x)
  {
    BitAbove(x / 2 / 8, x / 2 % 8, 4, 2);
    assert x / 2 == x / 2 / 8 * 8 + x / 2 % 8;
  }

  /** An entry's flag word has the entry's R, W, X bits; with V set it makes an entry with the same flags. */
  lemma FlagsOfEntry(w: Word)
    ensures IsLeaf(PteFlags(w)) == IsLeaf(w)
    ensures IsValid(w) ==> PteFlags(w) / 2 * 2 + 1 == PteFlags(w)
  {
    var f, q := w % 1024, w / 1024;
    assert w == q * 512 * 2 + f;
    Half(w, q * 512, f);
    BitAbove(q, f / 2, 64, 8);
    assert w / 2 == q * (64 * 8) + f / 2;
    if IsValid(w) {
      BitAbove(q, f, 512, 2);
    }
  }

  lemma DivModOf(q: nat, r: nat, d: nat)
    requires 0 < d && r < d
    ensures (q * d + r) / d == q && (q * d + r) % d == r
  {
    var x := q * d + r;
    var e := x / d - q;
    assert e * d == r - x % d by { assert x == x / d * d + x % d; }
  }

  lemma BitAbove(q: nat, r: nat, k: nat, m: nat)
    requires 0 < m
    ensures (q * (k * m) + r) % m == r % m
  {
    DivModOf(q * k + r / m, r % m, m);
    assert q * (k * m) + r == (q * k + r / m) * m + r % m by {
      assert q * (k * m) == q * k * m;
      assert r == r / m * m + r % m;
    }
  }

  lemma Half(x: nat, q: nat, r: nat)
    requires x == q * 2 + r
    ensures x / 2 == q + r / 2
  {
  }

  lemma Halves(x: nat)
    ensures x / 4 == x / 2 / 2 && x / 8 == x / 4 / 2 && x / 16 == x / 8 / 2
  {
  }
}
