/** Byte-addressed physical memory and the page allocator of kalloc.c.

    Addresses are physical. Pages below `end` (devices, the kernel image) are never handed out. The ghost
    view reads the bytes as little-endian words, page by page, and adds the list and the page roles. */
module Kalloc {
  import opened Riscv
  import opened PageTable
  import Common

  function Le(b0: Byte, b1: Byte, b2: Byte, b3: Byte, b4: Byte, b5: Byte, b6: Byte, b7: Byte): Word {
    b0 + 256 * (b1 + 256 * (b2 + 256 * (b3 + 256 * (b4 + 256 * (b5 + 256 * (b6 + 256 * b7))))))
  }

  /** The k-th byte of a word, counted from the low end. */
  function ByteOf(w: nat, k: nat): Byte {
    if k == 0 then w % 256 else ByteOf(w / 256, k - 1)
  }

  /** The b-th byte of a page of words. */
  function PageByte(page: seq<Word>, b: nat): Byte
    requires |page| == SLOTS && b < PGSIZE
  {
    ByteOf(page[b / 8], b % 8)
  }

  /** The byte at physical address a. */
  ghost function ByteAt(mem: Memory, a: nat): Byte
    requires a / 4096 < |mem| && |mem[a / 4096]| == SLOTS
  {
    PageByte(mem[a / 4096], a % 4096)
  }

  /** A word's bytes are the ones it was made of. */
  lemma BytesOfLe(b: seq<Byte>, k: nat)
    requires |b| == 8 && k < 8
    ensures ByteOf(Le(b[0], b[1], b[2], b[3], b[4], b[5], b[6], b[7]), k) == b[k]
  {
    hide ByteOf, Le;
    var w: seq<nat> := Tails(b);
    TailsOf(b);
    LowByte(b[0], w[1], k);
    if k >= 1 { LowByte(b[1], w[2], k - 1); }
    if k >= 2 { LowByte(b[2], w[3], k - 2); }
    if k >= 3 { LowByte(b[3], w[4], k - 3); }
    if k >= 4 { LowByte(b[4], w[5], k - 4); }
    if k >= 5 { LowByte(b[5], w[6], k - 5); }
    if k >= 6 { LowByte(b[6], b[7], k - 6); }
    if k == 7 { LowByte(b[7], 0, 0); }
  }

  /** The word that bytes k .. 7 of b make up, for each k. */
  function Tails(b: seq<Byte>): seq<nat>
    requires |b| == 8
  {
    var b7: nat := b[7];
    var w6: nat := b[6] + 256 * b7;
    var w5: nat := b[5] + 256 * w6;
    var w4: nat := b[4] + 256 * w5;
    var w3: nat := b[3] + 256 * w4;
    var w2: nat := b[2] + 256 * w3;
    var w1: nat := b[1] + 256 * w2;
    [b[0] + 256 * w1, w1, w2, w3, w4, w5, w6]
  }

  lemma TailsOf(b: seq<Byte>)
    requires |b| == 8
    ensures Le(b[0], b[1], b[2], b[3], b[4], b[5], b[6], b[7]) == Tails(b)[0]
  {
  }

  lemma LowByte(b: Byte, r: nat, k: nat)
    ensures ByteOf(b + 256 * r, k) == if k == 0 then b else ByteOf(r, k - 1)
  {
    assert (b + 256 * r) % 256 == b && (b + 256 * r) / 256 == r;
  }

  /** A byte-wise copy, page by page. */
  lemma CopiedBytes(mem: Memory, mem': Memory, bytes: seq<Byte>, bytes': seq<Byte>, p: nat, dst: nat, src: nat, n: nat,
      off: nat)
    requires |bytes| == |bytes'| == |mem| * 4096 == |mem'| * 4096 && p < |mem|
    requires forall q :: 0 <= q < |mem| ==> |mem[q]| == |mem'[q]| == SLOTS
    requires forall a: nat :: a < |bytes| ==> bytes[a] == ByteAt(mem, a)
    requires forall a: nat :: a < |bytes| ==> bytes'[a] == ByteAt(mem', a)
    requires dst == p * 4096 + off && off + n <= PGSIZE && src + n <= |bytes|
    requires forall a: nat :: dst <= a < dst + n ==> bytes'[a] == bytes[src + (a - dst)]
    requires forall a: nat :: a < |bytes| && !(dst <= a < dst + n) ==> bytes'[a] == bytes[a]
    ensures forall b: nat :: b < PGSIZE ==>
              PageByte(mem'[p], b) == if off <= b < off + n then ByteAt(mem, src + (b - off)) else PageByte(mem[p], b)
  {
    hide PageByte;
    forall b: nat | b < PGSIZE
      ensures PageByte(mem'[p], b) == if off <= b < off + n then ByteAt(mem, src + (b - off)) else PageByte(mem[p], b)
    {
      var a := p * 4096 + b;
      assert a / 4096 == p && a % 4096 == b && a - dst == b - off;
      assert ByteAt(mem', a) == PageByte(mem'[p], b) && ByteAt(mem, a) == PageByte(mem[p], b);
      if off <= b < off + n {
        assert bytes'[a] == bytes[src + (b - off)];
      } else {
        assert bytes'[a] == bytes[a];
      }
    }
  }

  /** A word whose eight bytes are all c. */
  function Repeated(c: Byte): Word {
    Le(c, c, c, c, c, c, c, c)
  }

  class Machine {
    const end: nat
    const ram: array<Byte>
    var freelist: Word
    ghost var view: View

    ghost predicate Valid()
      reads this, ram
    {
      && ram.Length == |view.mem| * 4096
      && Shape(view)
      && freelist == view.head
      && 0 < end
      && (forall p: nat :: p in view.role ==> end <= p * 4096)
      && (forall p: nat, i: nat {:trigger view.mem[p][i]} :: p < |view.mem| && i < SLOTS ==>
           view.mem[p][i] == WordAt(p * 4096 + i * 8))
    }

    /** The word at an address, as the processor loads it. */
    function WordAt(a: nat): Word
      requires a + 8 <= ram.Length
      reads ram
    {
      Le(ram[a], ram[a + 1], ram[a + 2], ram[a + 3], ram[a + 4], ram[a + 5], ram[a + 6], ram[a + 7])
    }

    method Load(a: nat, ghost p: nat, ghost i: nat) returns (w: Word)
      requires Valid() && p < |view.mem| && i < SLOTS && a == p * 4096 + i * 8
      ensures w == view.mem[p][i]
    {
      w := WordAt(a);
    }

    /** The words of the first n pages. */
    ghost function Snapshot(n: nat): Memory
      requires ram.Length == n * 4096
      reads ram
    {
      seq(n, p requires 0 <= p < n reads ram =>
        seq(512, i requires 0 <= i < 512 reads ram => WordAt(p * 4096 + i * 8)))
    }

    /** Nothing is free yet; the boot code holds every page from `end` on. */
    ghost predicate AtPowerOn()
      reads this, ram
    {
      && Valid() && Inv(view) && view.free == []
      && (forall p: nat :: p in view.role <==> end <= p * 4096 && p < |view.mem|)
      && (forall p: nat :: p in view.role ==> view.role[p] == Held(0))
    }

    /** Memory at power-on: `n` pages of arbitrary contents, those at or above `end` in the boot code's hands. */
    constructor (end: nat, n: nat)
      requires 0 < end && n <= MAXPAGES
      ensures AtPowerOn() && fresh(ram) && this.end == end && |view.mem| == n
    {
      this.end := end;
      ram := new Byte[n * 4096];
      freelist := 0;
      new;
      hide Le, InvExcept;
      view := View(Snapshot(n), 0, [], map p: nat | p < n && end <= p * 4096 :: Held(0));
      PowerOnInv(view, end, n);
    }

    /** The bytes an eight-byte store leaves. */
    method WriteBytes(a: nat, w: Word)
      requires a + 8 <= ram.Length
      modifies ram
      ensures WordAt(a) == w
      ensures forall k :: 0 <= k < ram.Length && !(a <= k < a + 8) ==> ram[k] == old(ram[k])
    {
      hide Le;
      var w1, w2, w3 := w / 256, w / 256 / 256, w / 256 / 256 / 256;
      var w4, w5, w6, w7 := w3 / 256, w3 / 256 / 256, w3 / 256 / 256 / 256, w3 / 256 / 256 / 256 / 256;
      BytesOfWord(w, w1, w2, w3, w4, w5, w6, w7);
      ram[a], ram[a + 1], ram[a + 2], ram[a + 3] := w % 256, w1 % 256, w2 % 256, w3 % 256;
      ram[a + 4], ram[a + 5], ram[a + 6], ram[a + 7] := w4 % 256, w5 % 256, w6 % 256, w7;
    }

    method Store(a: nat, w: Word, ghost p: nat, ghost i: nat)
      requires Valid() && p < |view.mem| && i < SLOTS && a == p * 4096 + i * 8
      modifies this`view, ram
      ensures Valid() && view == SetWord(old(view), p, i, w)
    {
      hide Le;
      WriteBytes(a, w);
      view := SetWord(view, p, i, w);
      forall q: nat, j: nat | q < |view.mem| && j < SLOTS ensures view.mem[q][j] == WordAt(q * 4096 + j * 8) {
        assert old(view.mem[q][j] == WordAt(q * 4096 + j * 8));
        if (q, j) != (p, i) {
          WordsApart(p, i, q, j);
        }
      }
    }

    /** Fills one page with a byte. */
    method MemsetPage(a: nat, c: Byte, ghost p: nat)
      requires Valid() && p < |view.mem| && a == p * 4096
      modifies this`view, ram
      ensures Valid() && view == SetPage(old(view), p, Filled(Repeated(c)))
    {
      hide Le;
      Common.Memset(ram, a, c, PGSIZE);
      view := SetPage(view, p, Filled(Repeated(c)));
      forall q: nat, j: nat | q < |view.mem| && j < SLOTS ensures view.mem[q][j] == WordAt(q * 4096 + j * 8) {
        assert old(view.mem[q][j] == WordAt(q * 4096 + j * 8));
        PagesApart(p, q, j);
      }
    }

    /** Zeroes n words of a page, byte by byte. */
    method MemsetZero(a: nat, n: nat, ghost p: nat, ghost i: nat)
      requires Valid() && p < |view.mem| && i + n <= SLOTS && a == p * 4096 + i * 8
      modifies this`view, ram
      ensures Valid() && view == SetPage(old(view), p, ZeroWords(old(view.mem[p]), i, n))
    {
      hide Le;
      ZeroWord();
      Common.Memset(ram, a, 0, n * 8);
      ghost var s := view;
      view := SetPage(view, p, ZeroWords(view.mem[p], i, n));
      forall q: nat, j: nat | q < |view.mem| && j < SLOTS ensures view.mem[q][j] == WordAt(q * 4096 + j * 8) {
        assert old(view.mem[q][j] == WordAt(q * 4096 + j * 8));
        if q != p || j < i || i + n <= j {
          WordsApartFrom(p, i, n, q, j);
        } else {
          assert view.mem[q][j] == 0;
        }
      }
    }

    /** Copies one page onto another. */
    method MemmovePage(dst: nat, src: nat, ghost p: nat, ghost o: nat)
      requires Valid() && p < |view.mem| && o < |view.mem| && dst == p * 4096 && src == o * 4096
      modifies this`view, ram
      ensures Valid() && view == SetPage(old(view), p, old(view.mem[o]))
    {
      hide Le;
      Common.Memmove(ram, dst, src, PGSIZE);
      view := SetPage(view, p, view.mem[o]);
      forall q: nat, j: nat | q < |view.mem| && j < SLOTS ensures view.mem[q][j] == WordAt(q * 4096 + j * 8) {
        assert old(view.mem[q][j] == WordAt(q * 4096 + j * 8));
        assert old(view.mem[o][j] == WordAt(o * 4096 + j * 8));
        PagesApart(p, q, j);
      }
    }

    /** The view's bytes are the ones in memory. */
    lemma ByteInRam(a: nat)
      requires Valid() && a < ram.Length
      ensures ram[a] == ByteAt(view.mem, a)
    {
      hide Le, ByteOf;
      var p, b := a / 4096, a % 4096;
      var i, k := b / 8, b % 8;
      var w := p * 4096 + i * 8;
      assert view.mem[p][i] == WordAt(w);
      BytesOfLe(ram[w..w + 8], k);
      assert ram[w..w + 8][k] == ram[a];
    }

    /** The words of page p as they are in memory. */
    ghost function PageInRam(p: nat): seq<Word>
      requires p * 4096 + 4096 <= ram.Length
      reads ram
    {
      seq(512, i requires 0 <= i < 512 reads ram => WordAt(p * 4096 + i * 8))
    }

    /** memmove (or, without `move`, memcpy) of n bytes into page p, from its offset off on. */
    method CopyInto(dst: nat, src: nat, n: nat, move: bool, ghost p: nat, ghost off: nat)
      requires Valid() && 0 <= p < |view.mem| && off + n <= PGSIZE && dst == p * 4096 + off && src + n <= ram.Length
      requires move || dst <= src || src + n <= dst
      modifies this`view, ram
      ensures Valid() && |view.mem[p]| == SLOTS && view == SetPage(old(view), p, view.mem[p])
      ensures forall b: nat :: b < PGSIZE ==>
                PageByte(view.mem[p], b) ==
                if off <= b < off + n then ByteAt(old(view.mem), src + (b - off)) else PageByte(old(view.mem[p]), b)
    {
      hide Le, ByteOf, PageByte, ByteAt, Common.ForwardIndex;
      ghost var s := view;
      ghost var bytes := ram[..];
      forall a: nat | a < ram.Length ensures bytes[a] == ByteAt(s.mem, a) {
        ByteInRam(a);
      }
      if move {
        Common.Memmove(ram, dst, src, n);
      } else {
        Common.Memcpy(ram, dst, src, n);
      }
      view := SetPage(view, p, PageInRam(p));
      forall q: nat, j: nat | q < |view.mem| && j < SLOTS ensures view.mem[q][j] == WordAt(q * 4096 + j * 8) {
        assert old(view.mem[q][j] == WordAt(q * 4096 + j * 8));
        PagesApart(p, q, j);
      }
      forall a: nat | a < ram.Length ensures ram[a] == ByteAt(view.mem, a) {
        ByteInRam(a);
      }
      CopiedBytes(s.mem, view.mem, bytes, ram[..], p, dst, src, n, off);
    }

    /** Ownership is a matter of the proof: nothing in memory changes. */
    ghost method Relabel(p: nat, r: Role)
      requires Valid() && p in view.role
      modifies this`view
      ensures Valid() && view == SetRole(old(view), p, r)
    {
      view := SetRole(view, p, r);
    }

    // -------------------------------------------------------------- kalloc.c

    /** Takes the first page of the list, filled with junk; 0 if the list is empty. */
    method Kalloc() returns (pa: Word)
      requires Valid() && Inv(view)
      modifies this`view, this`freelist, ram
      ensures Valid()
      ensures old(view.free) == [] ==> pa == 0 && view == old(view)
      ensures old(view.free) != [] ==>
                && LinkOk(old(view), 0) && ListAddr(old(view.free), 1) < WORD_MODULUS
                && 0 < pa == old(view.free)[0] * 4096 && view == Pop(old(view))
    {
      hide Le;
      ghost var s := view;
      pa := freelist;
      if view.free != [] {
        assert LinkOk(view, 0);
      }
      if pa != 0 {
        freelist := Load(pa, s.free[0], 0);
        assert freelist == ListAddr(s.free, 1);
        view := view.(head := freelist, free := s.free[1..], role := s.role[s.free[0] := Held(0)]);
        MemsetPage(pa, 5, s.free[0]);
        assert Repeated(5) == JUNK_ALLOCATED by { RepeatedJunk(); }
      }
    }

    /** Gives a page back; its junk-filled first word becomes the link to the old list. */
    method Kfree(pa: Word, ghost p: nat)
      requires Valid() && p in view.role && pa == p * 4096
      modifies this`view, this`freelist, ram
      ensures Valid() && view == Push(old(view), p)
    {
      hide Le;
      // the three conditions under which the source panics
      assert pa % 4096 == 0 && pa >= end && pa < ram.Length;
      MemsetPage(pa, 1, p);
      Store(pa, freelist, p, 0);
      freelist := pa;
      assert Repeated(1) == JUNK_FREED by { RepeatedJunk(); }
      assert view.mem == Push(old(view), p).mem;
      view := Push(old(view), p);
    }

    /** Frees exactly the aligned whole pages of [start, stop), in address order; other pages keep their contents. */
    method FreeRange(start: Word, stop: Word)
      requires Valid() && Inv(view) && start + 4095 < WORD_MODULUS && stop <= ram.Length
      requires forall p: nat :: start <= p * 4096 && (p + 1) * 4096 <= stop ==>
                 p in view.role && view.role[p] == Held(0)
      modifies this`view, this`freelist, ram
      ensures Valid() && Inv(view) && |view.mem| == |old(view.mem)|
      ensures view.role.Keys == old(view.role.Keys)
      ensures forall p: nat :: p in view.role ==>
                view.role[p] == if start <= p * 4096 && (p + 1) * 4096 <= stop then Free else old(view.role[p])
      ensures view.free == Descending((start + 4095) / 4096, stop / 4096) + old(view.free)
      ensures forall p: nat :: p < |view.mem| && !(start <= p * 4096 && (p + 1) * 4096 <= stop) ==>
                view.mem[p] == old(view.mem)[p]
    {
      hide Le, InvExcept, PgRoundUp, Push, Descending, Machine.Valid, FreedUpTo;
      RangeStart(start);
      ghost var s0 := view;
      var p: nat := PgRoundUp(start);
      ghost var lo := p / 4096;
      ghost var q := lo;
      FreedNone(s0, lo);
      while p + PGSIZE <= stop
        invariant p == q * 4096 && lo <= q && Valid() && Inv(view) && FreedUpTo(s0, view, lo, q)
        invariant q == lo || p <= stop
        decreases stop - p
      {
        ghost var s := view;
        assert start <= q * 4096 && (q + 1) * 4096 <= stop;
        StillHeld(s0, s, lo, q);
        PushInv(s, q, {});
        Kfree(p, q);
        FreedStep(s0, s, lo, q);
        p := p + PGSIZE;
        q := q + 1;
      }
      FreedAll(s0, view, start, stop, lo, q);
    }

    /** After boot every managed page is free, and memory below `end` is as it was. */
    method Kinit()
      requires AtPowerOn() && end + 4095 < WORD_MODULUS
      modifies this`view, this`freelist, ram
      ensures Valid() && Inv(view) && |view.mem| == |old(view.mem)|
      ensures view.role.Keys == old(view.role.Keys)
      ensures forall p: nat :: p in view.role ==> view.role[p] == Free
      ensures view.free == Descending((end + 4095) / 4096, |view.mem|)
      ensures forall p: nat :: p < |view.mem| && p !in view.role ==> view.mem[p] == old(view.mem)[p]
    {
      FreeRange(end, ram.Length);
    }
  }

  /** The pages lo .. hi - 1, last first. */
  function Descending(lo: nat, hi: nat): seq<nat> {
    if hi <= lo then [] else [hi - 1] + Descending(lo, hi - 1)
  }

  /** With every page held, and none free, the invariant asks for nothing more. */
  lemma PowerOnInv(s: View, end: nat, n: nat)
    requires |s.mem| == n <= MAXPAGES && 0 < end && (forall p :: 0 <= p < n ==> |s.mem[p]| == SLOTS)
    requires s.head == 0 && s.free == [] && s.role == map p: nat | p < n && end <= p * 4096 :: Held(0)
    ensures Inv(s)
  {
  }

  lemma {:induction false} DescendingSize(lo: nat, hi: nat)
    requires lo <= hi
    ensures |Descending(lo, hi)| == hi - lo
    decreases hi
  {
    if lo < hi {
      DescendingSize(lo, hi - 1);
    }
  }

  lemma RepeatedJunk()
    ensures Repeated(5) == JUNK_ALLOCATED && Repeated(1) == JUNK_FREED && Repeated(0) == 0
  {
  }

  lemma RangeStart(start: Word)
    requires start + 4095 < WORD_MODULUS
    ensures PgRoundUp(start) % 4096 == 0 && PgRoundUp(start) / 4096 == (start + 4095) / 4096
            && start <= PgRoundUp(start) < start + 4096
  {
  }

  lemma DescendingStep(lo: nat, q: nat)
    ensures (q <= lo ==> Descending(lo, q) == []) && (lo <= q ==> Descending(lo, q + 1) == [q] + Descending(lo, q))
  {
  }

  /** The pages lo .. q - 1 have been given back, in that order; nothing else has changed. */
  ghost predicate FreedUpTo(s0: View, s: View, lo: nat, q: nat) {
    && |s.mem| == |s0.mem| && s.role.Keys == s0.role.Keys
    && s.free == Descending(lo, q) + s0.free
    && (forall x: nat :: x in s.role ==> s.role[x] == if lo <= x < q then Free else s0.role[x])
    && (forall x: nat :: x < |s.mem| && !(lo <= x < q) ==> s.mem[x] == s0.mem[x])
  }

  lemma FreedNone(s: View, lo: nat)
    ensures FreedUpTo(s, s, lo, lo)
  {
    DescendingStep(lo, lo);
  }

  lemma StillHeld(s0: View, s: View, lo: nat, q: nat)
    requires FreedUpTo(s0, s, lo, q) && q in s0.role && s0.role[q] == Held(0)
    ensures q in s.role && s.role[q] == Held(0)
  {
  }

  lemma FreedStep(s0: View, s: View, lo: nat, q: nat)
    requires FreedUpTo(s0, s, lo, q) && Inv(s) && q in s.role && lo <= q
    ensures q < |s.mem| && q < MAXPAGES && FreedUpTo(s0, Push(s, q), lo, q + 1)
  {
    hide Descending;
    DescendingStep(lo, q);
  }

  lemma FreedAll(s0: View, s: View, start: Word, stop: Word, lo: nat, q: nat)
    requires FreedUpTo(s0, s, lo, q) && lo == (start + 4095) / 4096 && lo <= q
    requires q * 4096 + 4096 > stop && (q == lo || q * 4096 <= stop)
    ensures |s.mem| == |s0.mem| && s.role.Keys == s0.role.Keys
    ensures forall p: nat :: p in s.role ==>
              s.role[p] == if start <= p * 4096 && (p + 1) * 4096 <= stop then Free else s0.role[p]
    ensures s.free == Descending(lo, stop / 4096) + s0.free
    ensures forall p: nat :: p < |s.mem| && !(start <= p * 4096 && (p + 1) * 4096 <= stop) ==> s.mem[p] == s0.mem[p]
  {
    hide Descending;
    DescendingStep(lo, stop / 4096);
    DescendingStep(lo, lo);
    forall p: nat ensures start <= p * 4096 && (p + 1) * 4096 <= stop <==> lo <= p < q {
    }
  }

  /** A page with n words from i on zeroed. */
  function ZeroWords(page: seq<Word>, i: nat, n: nat): (r: seq<Word>)
    requires |page| == SLOTS && i + n <= SLOTS
    ensures |r| == SLOTS && forall j :: 0 <= j < SLOTS ==> r[j] == if i <= j < i + n then 0 else page[j]
  {
    page[..i] + seq(n, _ => 0) + page[i + n..]
  }

  lemma ZeroWord()
    ensures Le(0, 0, 0, 0, 0, 0, 0, 0) == 0
  {
  }

  lemma WordsApartFrom(p: nat, i: nat, n: nat, q: nat, j: nat)
    requires i + n <= 512 && j < 512 && (q != p || j < i || i + n <= j)
    ensures q * 4096 + j * 8 + 8 <= p * 4096 + i * 8 || p * 4096 + i * 8 + n * 8 <= q * 4096 + j * 8
  {
  }

  /** Distinct words do not overlap. */
  lemma WordsApart(p: nat, i: nat, q: nat, j: nat)
    requires i < 512 && j < 512 && (p, i) != (q, j)
    ensures q * 4096 + j * 8 + 8 <= p * 4096 + i * 8 || p * 4096 + i * 8 + 8 <= q * 4096 + j * 8
  {
  }

  /** A word lies within its page. */
  lemma PagesApart(p: nat, q: nat, j: nat)
    requires j < 512
    ensures p == q ==> p * 4096 <= q * 4096 + j * 8 && q * 4096 + j * 8 + 8 <= p * 4096 + 4096
    ensures p != q ==> q * 4096 + j * 8 + 8 <= p * 4096 || p * 4096 + 4096 <= q * 4096 + j * 8
  {
  }

  /** The eight bytes of a word make it up again. */
  lemma BytesOfWord(w: Word, w1: nat, w2: nat, w3: nat, w4: nat, w5: nat, w6: nat, w7: nat)
    requires w1 == w / 256 && w2 == w1 / 256 && w3 == w2 / 256 && w4 == w3 / 256
    requires w5 == w4 / 256 && w6 == w5 / 256 && w7 == w6 / 256
    ensures w7 < 256
    ensures Le(w % 256, w1 % 256, w2 % 256, w3 % 256, w4 % 256, w5 % 256, w6 % 256, w7) == w
  {
  }
}
