/** vm.c: the operations on page tables, in place on physical memory.

    A page table is named by the physical address of its root page; the ghost argument is that page. */
module Vm {
  import opened Riscv
  import opened Wrappers
  import opened PageTable
  import opened Translation
  import opened Ownership
  import opened Teardown
  import opened Kalloc

  /** Memory and its ghost view agree, and the view is well formed. */
  ghost predicate Ok(k: Machine)
    reads k, k.ram
  {
    k.Valid() && Inv(k.view)
  }

  /** The allocating branch of walk: a zeroed page linked below an empty slot; 0 if no page is left. */
  method NewTable(k: Machine, slot: Word, ghost p: nat, ghost i: nat) returns (pt: Word)
    requires Ok(k) && IsTable(k.view, p) && 0 < k.view.role[p].level && i < SLOTS && slot == p * 4096 + i * 8
    requires !IsValid(k.view.mem[p][i])
    modifies k`view, k`freelist, k.ram
    ensures k.Valid()
    ensures old(k.view.free) == [] ==> pt == 0 && k.view == old(k.view)
    ensures var s := old(k.view);
            s.free != [] ==>
              && s.free[0] < |s.mem| && p != s.free[0] && ListAddr(s.free, 1) < WORD_MODULUS
              && 0 < pt == s.free[0] * 4096 && k.view == AllocTable(s, p, i)
  {
    hide IsValid, Ppn, MakePte, Repeated, EdgesOk, LeavesOk, NodesOk, FramesOk;
    ghost var s := k.view;
    pt := k.Kalloc();
    if pt != 0 {
      ListedIsFree(s, s.free[0]);
      k.MemsetPage(pt, 0, s.free[0]);
      RepeatedJunk();
      k.Store(slot, MakePte(pt / 4096, 0), p, i);
      k.Relabel(s.free[0], Table(s.role[p].root, s.role[p].level - 1, s.role[p].prefix * 512 + i, p, i));
    }
  }

  /** The address of the leaf entry for va, or 0. With `alloc`, missing tables are made on the way. */
  method Walk(k: Machine, pagetable: Word, va: Word, alloc: bool, ghost root: nat) returns (pte: Word, ghost t: nat)
    requires Ok(k) && IsRoot(k.view, root) && pagetable == root * 4096 && va < MAXVA
    modifies k`view, k`freelist, k.ram
    ensures Ok(k) && Grown(old(k.view), k.view, root)
    ensures AbsMap(k.view.mem, root) == AbsMap(old(k.view.mem), root)
    ensures !alloc ==> k.view == old(k.view)
    ensures pte != 0 ==> TableAt(k.view.mem, root, va / 4096, 0) == Some(t) && pte == t * 4096 + Px(0, va / 4096) * 8
    ensures !alloc && pte == 0 ==> TableAt(k.view.mem, root, va / 4096, 0) == None
    ensures alloc && pte != 0 ==> Positions(k.view, root) == Positions(old(k.view), root) + Needed(va / 4096)
    ensures alloc && pte == 0 ==>
              && k.view.free == []
              && Positions(k.view, root) < Positions(old(k.view), root) + Needed(va / 4096)
              && Positions(old(k.view), root) <= Positions(k.view, root)
  {
    hide AbsMap, TableAt, Px, Prefix, IsValid, Ppn, MakePte, Pte2Pa, Positions, Inv, Grown, PathPlaces, Needed,
        AllocTable, Machine.Valid;
    ghost var s0 := k.view;
    ghost var vpn := va / 4096;
    var pt, level := pagetable, 2;
    t := root;
    WalkStart(s0, root, vpn);
    while level > 0
      invariant 0 <= level <= 2 && Ok(k) && IsRoot(k.view, root) && Grown(s0, k.view, root)
      invariant AbsMap(k.view.mem, root) == AbsMap(s0.mem, root)
      invariant !alloc ==> k.view == s0
      invariant TableAt(k.view.mem, root, vpn, level) == Some(t) && pt == t * 4096
      invariant alloc ==> Positions(k.view, root) == Positions(s0, root) + PathPlaces(vpn, level)
    {
      var i := Px(level, va / 4096);
      var slot := pt + i * 8;
      ghost var s := k.view;
      WalkStep(s, root, vpn, level, t);
      assert s.role[t].root == root && s.role[t].level == level;
      if alloc { PathPlacesStep(s0, s, root, vpn, level); }
      var w := k.Load(slot, t, i);
      if IsValid(w) {
        pt := Pte2Pa(w);
        t := Ppn(w);
      } else {
        if !alloc {
          PathEnds(s, root, vpn, level);
          return 0, t;
        }
        pt := NewTable(k, slot, t, i);
        if pt == 0 {
          return 0, t;
        }
        AllocTableEffect(s, t, vpn);
        GrownRoot(s, k.view, root, root);
        GrownTransitive(s0, s, k.view, root);
        t := s.free[0];
      }
      level := level - 1;
    }
    WalkEnd(k.view, root, vpn, t);
    pte := pt + Px(0, va / 4096) * 8;
  }

  /** The physical address of a user page, or 0. */
  method WalkAddr(k: Machine, pagetable: Word, va: Word, ghost root: nat) returns (pa: Word)
    requires Ok(k) && IsRoot(k.view, root) && pagetable == root * 4096
    modifies k`view, k`freelist, k.ram
    ensures Ok(k) && k.view == old(k.view)
    ensures pa == UserFrame(k.view.mem, root, va)
  {
    hide AbsMap, Inv, TableAt, Px, IsValid, IsUser, Pte2Pa, Machine.Valid, Grown;
    if va >= MAXVA { return 0; }
    var pte, t := Walk(k, pagetable, va, false, root);
    NoLeafEntry(k.view, root, va / 4096);
    if pte == 0 { return 0; }
    LeafEntry(k.view, root, va / 4096, t);
    var w := k.Load(pte, t, Px(0, va / 4096));
    if !IsValid(w) { return 0; }
    if !IsUser(w) { return 0; }
    pa := Pte2Pa(w);
  }

  /** Whether the page of va is mapped. */
  method IsMapped(k: Machine, pagetable: Word, va: Word, ghost root: nat) returns (b: bool)
    requires Ok(k) && IsRoot(k.view, root) && pagetable == root * 4096 && va < MAXVA
    modifies k`view, k`freelist, k.ram
    ensures Ok(k) && k.view == old(k.view)
    ensures b <==> va / 4096 in AbsMap(k.view.mem, root)
  {
    hide AbsMap, Inv, TableAt, Px, IsValid, Machine.Valid, Grown;
    var pte, t := Walk(k, pagetable, va, false, root);
    NoLeafEntry(k.view, root, va / 4096);
    if pte == 0 { return false; }
    LeafEntry(k.view, root, va / 4096, t);
    var w := k.Load(pte, t, Px(0, va / 4096));
    b := IsValid(w);
  }

  /** Maps [va, va + size) to consecutive frames from pa on, page by page. 0 if all of it is mapped; -1 if a
      table could not be made, with the pages before that mapped, as many as there were free pages for. */
  method MapPages(k: Machine, pagetable: Word, va: Word, size: Word, pa: Word, perm: Word,
      ghost root: nat) returns (r: int)
    requires Ok(k) && IsRoot(k.view, root) && pagetable == root * 4096
    requires va % 4096 == 0 && size % 4096 == 0 && size > 0 && va + size <= MAXVA
    requires pa / 4096 + size / 4096 <= MAXPAGES && perm < 1024 && IsLeaf(perm)
    requires forall v :: va / 4096 <= v < va / 4096 + size / 4096 ==> v !in AbsMap(k.view.mem, root)
    modifies k`view, k`freelist, k.ram
    ensures Ok(k) && IsRoot(k.view, root) && Grown(old(k.view), k.view, root)
    ensures r == 0 || r == -1
    ensures var s, lo, n := old(k.view), va / 4096, size / 4096;
            && (r == 0 ==>
                  && AbsMap(k.view.mem, root) == AbsMap(s.mem, root) + RangeMap(lo, n, pa / 4096, perm)
                  && Positions(k.view, root) == Positions(s, root) + NeededOf(Pages(lo, n)))
            && (r == -1 ==>
                  && k.view.free == []
                  && Positions(k.view, root) < Positions(s, root) + NeededOf(Pages(lo, n))
                  && exists j: nat :: j < n
                       && TableCost(s, root, Pages(lo, j)) <= |s.free| < TableCost(s, root, Pages(lo, j + 1))
                       && AbsMap(k.view.mem, root) == AbsMap(s.mem, root) + RangeMap(lo, j, pa / 4096, perm))
            && (r == 0 <==> |s.free| >= TableCost(s, root, Pages(lo, n)))
  {
    hide AbsMap, TableAt, Px, Prefix, IsValid, Ppn, MakePte, Positions, Inv, Grown, Needed, NeededOf, Pages,
        Machine.Valid, RangeMap, IsLeaf, SetWord, TableCost;
    ghost var s0 := k.view;
    ghost var lo, n := va / 4096, size / 4096;
    ghost var j := 0;
    MapStart(s0, root, lo, pa / 4096, perm);
    var a, last, p := va, va + size - PGSIZE, pa;
    while true
      invariant 0 <= j < n && a == va + j * 4096 && p == pa + j * 4096 && a <= last
      invariant Ok(k) && IsRoot(k.view, root) && Grown(s0, k.view, root)
      invariant AbsMap(k.view.mem, root) == AbsMap(s0.mem, root) + RangeMap(lo, j, pa / 4096, perm)
      invariant Positions(k.view, root) == Positions(s0, root) + NeededOf(Pages(lo, j))
      decreases n - j
    {
      ghost var s := k.view;
      assert a / 4096 == lo + j && p / 4096 == pa / 4096 + j;
      var pte, t := Walk(k, pagetable, a, true, root);
      ghost var s1 := k.view;
      GrownRoot(s, s1, root, root);
      if pte == 0 {
        PagesWithin(lo, j, n);
        GrowthShort(s0, s, s1, root, Pages(lo, j), lo + j, Pages(lo, n));
        PagesStep(lo, j);
        GrowthShort(s0, s, s1, root, Pages(lo, j), lo + j, Pages(lo, j + 1));
        GrowthCost(s0, s, root, Pages(lo, j));
        return -1;
      }
      NotInRange(AbsMap(s0.mem, root), lo, j, pa / 4096, perm, lo + j);
      MakePteFields(p / 4096, perm);
      MakePteBits(p / 4096, perm);
      MapSlotEffect(s1, root, lo + j, t, MakePte(p / 4096, perm));
      var w := k.Load(pte, t, Px(0, lo + j));
      assert !IsValid(w);   // the remap panic is not reached
      k.Store(pte, MakePte(p / 4096, perm), t, Px(0, lo + j));
      RangeMapStep(AbsMap(s0.mem, root), lo, j, pa / 4096, perm);
      PagesStep(lo, j);
      NeededOfAdd(Pages(lo, j), lo + j);
      GrownTransitive(s, s1, k.view, root);
      GrownTransitive(s0, s, k.view, root);
      if a == last { break; }
      a := a + PGSIZE;
      p := p + PGSIZE;
      j := j + 1;
    }
    GrowthCost(s0, k.view, root, Pages(lo, n));
    r := 0;
  }

  /** A new empty tree; 0 if no page is left. */
  method UvmCreate(k: Machine) returns (pagetable: Word, ghost root: nat)
    requires Ok(k)
    modifies k`view, k`freelist, k.ram
    ensures Ok(k)
    ensures pagetable == 0 <==> old(k.view.free) == []
    ensures pagetable == 0 ==> k.view == old(k.view)
    ensures pagetable != 0 ==>
              var s := old(k.view);
              && pagetable == root * 4096 && IsRoot(k.view, root) && root in s.role && s.role[root] == Free
              && k.view.role == s.role[root := Table(root, 2, 0, root, 0)] && k.view.free == s.free[1..]
              && k.view.mem == s.mem[root := Filled(0)]
              && AbsMap(k.view.mem, root) == map[] && Positions(k.view, root) == {(2, 0)}
  {
    hide AbsMap, Positions, NodesOk, EdgesOk, LeavesOk, FramesOk, Repeated, Pop, Machine.Valid;
    ghost var s := k.view;
    root := 0;
    pagetable := k.Kalloc();
    if pagetable == 0 { return; }
    AllocPageInv(s, Filled(0));
    root := s.free[0];
    RepeatedJunk();
    PopMem(s);
    k.MemsetPage(pagetable, 0, root);
    NewRootInv(k.view, root);
    NewRootMap(k.view, root);
    k.Relabel(root, Table(root, 2, 0, root, 0));
  }

  /** Removes the mappings of npages pages from va on, those that exist; frees their frames if asked to. */
  method UvmUnmap(k: Machine, pagetable: Word, va: Word, npages: nat, doFree: bool, ghost root: nat)
    requires Ok(k) && IsRoot(k.view, root) && pagetable == root * 4096
    requires va % 4096 == 0 && va + npages * 4096 <= MAXVA
    requires doFree ==> forall v :: va / 4096 <= v < va / 4096 + npages ==> OwnsFrame(k.view, root, v)
    modifies k`view, k`freelist, k.ram
    ensures Ok(k) && IsRoot(k.view, root)
    ensures Released(old(k.view), k.view, root, Pages(va / 4096, npages), if doFree then Free else Held(0))
  {
    hide AbsMap, TableAt, Px, Prefix, IsValid, Ppn, Positions, Inv, Pages, Machine.Valid, OwnsFrame, Released, Pte2Pa;
    ghost var s0, lo, j := k.view, va / 4096, 0;
    ghost var r := if doFree then Free else Held(0);
    PagesEmpty(lo);
    ReleasedEmpty(s0, root, r);
    var a := va;
    while a < va + npages * PGSIZE
      invariant 0 <= j <= npages && a == va + j * 4096 && Ok(k) && IsRoot(k.view, root)
      invariant Released(s0, k.view, root, Pages(lo, j), r)
      invariant doFree ==> forall v :: lo + j <= v < lo + npages ==> OwnsFrame(k.view, root, v)
      decreases npages - j
    {
      ghost var s, v := k.view, lo + j;
      assert a / 4096 == v;
      var pte, t := Walk(k, pagetable, a, false, root);
      var mapped := false;
      if pte != 0 {
        WalkEnd(s, root, v, t);
        var w := k.Load(pte, t, Px(0, v));
        LeafEntry(s, root, v, t);
        if IsValid(w) {
          mapped := true;
          UnmapOneReleased(s, root, v, t, doFree);
          if doFree {
            ghost var q := Ppn(w);
            PteOfPage(w, q);
            k.Relabel(q, Held(0));
            k.Kfree(Pte2Pa(w), q);
          } else if FrameFor(s, Ppn(w), root, v) {
            k.Relabel(Ppn(w), Held(0));
          }
          k.Store(pte, 0, t, Px(0, v));
          assert k.view == UnmapOne(s, root, v, t, Px(0, v), doFree);
        }
      }
      if !mapped {
        NoLeafEntry(s, root, v);
        ReleaseNothing(s, root, v, r);
      }
      PagesStep(lo, j);
      ReleasedTransitive(s0, s, k.view, root, Pages(lo, j), {v}, r);
      if doFree {
        forall u | v + 1 <= u < lo + npages ensures OwnsFrame(k.view, root, u) {
          ReleasedOwns(s, k.view, root, {v}, r, u);
        }
      }
      a := a + PGSIZE;
      j := j + 1;
    }
  }

  /** The step that uvmalloc and uvmcopy share: map a page just allocated and filled, or give it back. */
  method MapOrFree(k: Machine, pagetable: Word, a: Word, mem: Word, perm: Perm, ghost s: View, ghost page: seq<Word>,
      ghost root: nat)
    returns (r: int)
    requires Inv(s) && IsRoot(s, root) && |s.free| > 0 && |page| == SLOTS && s.free[0] < |s.mem|
             && ListAddr(s.free, 1) < WORD_MODULUS
    requires k.Valid() && k.view == AllocFill(s, page) && mem == s.free[0] * 4096 && pagetable == root * 4096
    requires a % 4096 == 0 && a < MAXVA && a / 4096 !in AbsMap(s.mem, root) && IsLeaf(perm)
    modifies k`view, k`freelist, k.ram
    ensures Ok(k) && IsRoot(k.view, root)
    ensures r == 0 ==> Expanded(s, k.view, root, map[a / 4096 := Want(perm, page)])
    ensures r != 0 ==>
              && Grown(s, k.view, root) && AbsMap(k.view.mem, root) == AbsMap(s.mem, root)
              && |s.free| <= TableCost(s, root, {a / 4096})
  {
    hide AbsMap, Inv, Pages, Machine.Valid, Expanded, Grown, NeededOf, Positions, Px, MakePte, IsLeaf, TableCost,
        AllocFill, RangeMap;
    ghost var q, v, s1 := s.free[0], a / 4096, k.view;
    AllocPageInv(s, page);
    AllocPageMap(s, page, root);
    FreeCount(s, page);
    OneMapped(AbsMap(s.mem, root), v, q, perm);
    SameCost(s, s1, root, {v});
    r := MapPages(k, pagetable, a, PGSIZE, mem, perm, root);
    ghost var s2 := k.view;
    if r != 0 {
      NothingMapped(AbsMap(s.mem, root), AbsMap(s2.mem, root), v, q, perm);
      GiveBack(s, page, s2, root);
      k.Kfree(mem, q);
    } else {
      ghost var t := AddPage(s, page, s2, root, v, perm);
      k.Relabel(q, Frame(root, v, t, Px(0, v)));
    }
  }

  /** The pages that shrinking from oldsz to newsz gives up, as (first, count). */
  function ShrinkLo(newsz: Word): nat { PgRoundUp(newsz) / 4096 }

  function ShrinkCount(oldsz: Word, newsz: Word): nat {
    if newsz < oldsz && PgRoundUp(newsz) < PgRoundUp(oldsz) then (PgRoundUp(oldsz) - PgRoundUp(newsz)) / 4096 else 0
  }

  /** The first byte of page v lies in [lo, hi). */
  predicate StartsIn(lo: Word, v: nat, hi: Word) {
    lo <= v * 4096 < hi
  }

  /** Rounding up gives the first page that starts at or above an address. */
  lemma RoundUpPage(a: Word, v: nat)
    requires a + 4095 < WORD_MODULUS
    ensures PgRoundUp(a) / 4096 <= v <==> a <= v * 4096
  {
  }

  /** Shrinking gives up the pages that start at or above the new size and below the old one; either may lie within a
      page. */
  lemma ShrinkPages(oldsz: Word, newsz: Word, v: nat)
    requires oldsz <= MAXVA
    ensures v in Pages(ShrinkLo(newsz), ShrinkCount(oldsz, newsz)) <==> StartsIn(newsz, v, oldsz)
  {
    if newsz < oldsz {
      RoundUpPage(oldsz, v);
      RoundUpPage(newsz, v);
      assert InRange(ShrinkLo(newsz), ShrinkCount(oldsz, newsz), v) <==>
             PgRoundUp(newsz) / 4096 <= v < PgRoundUp(oldsz) / 4096;
    }
  }

  lemma ShrinkRange(oldsz: Word, newsz: Word)
    requires oldsz <= MAXVA
    ensures forall v: nat :: v in Pages(ShrinkLo(newsz), ShrinkCount(oldsz, newsz)) <==> StartsIn(newsz, v, oldsz)
    ensures forall v: nat :: ShrinkLo(newsz) <= v < ShrinkLo(newsz) + ShrinkCount(oldsz, newsz) ==>
              StartsIn(newsz, v, oldsz)
  {
    hide ShrinkLo, ShrinkCount, StartsIn;
    forall v: nat
      ensures v in Pages(ShrinkLo(newsz), ShrinkCount(oldsz, newsz)) <==> StartsIn(newsz, v, oldsz)
    {
      ShrinkPages(oldsz, newsz, v);
    }
    forall v: nat | ShrinkLo(newsz) <= v < ShrinkLo(newsz) + ShrinkCount(oldsz, newsz)
      ensures StartsIn(newsz, v, oldsz)
    {
      assert InRange(ShrinkLo(newsz), ShrinkCount(oldsz, newsz), v);
    }
  }

  /** Growing adds the pages that start at or above the old size and below the new one. */
  lemma GrownPages(oldsz: Word, newsz: Word, v: nat)
    requires oldsz <= newsz <= MAXVA
    ensures v in GrowPages(oldsz, newsz) <==> StartsIn(oldsz, v, newsz)
  {
    RoundUpPage(oldsz, v);
    RoundUpPage(newsz, v);
    assert InRange(PgRoundUp(oldsz) / 4096, GrowCount(oldsz, newsz), v) <==>
           PgRoundUp(oldsz) / 4096 <= v < PgRoundUp(newsz) / 4096;
  }

  /** Shrinks a process from oldsz to newsz bytes, freeing the pages above. */
  method UvmDealloc(k: Machine, pagetable: Word, oldsz: Word, newsz: Word, ghost root: nat) returns (r: Word)
    requires Ok(k) && IsRoot(k.view, root) && pagetable == root * 4096 && oldsz <= MAXVA
    requires forall v: nat :: StartsIn(newsz, v, oldsz) ==> OwnsFrame(k.view, root, v)
    modifies k`view, k`freelist, k.ram
    ensures Ok(k) && IsRoot(k.view, root)
    ensures forall v: nat :: v in Pages(ShrinkLo(newsz), ShrinkCount(oldsz, newsz)) <==> StartsIn(newsz, v, oldsz)
    ensures Released(old(k.view), k.view, root, Pages(ShrinkLo(newsz), ShrinkCount(oldsz, newsz)), Free)
    ensures r == if newsz < oldsz then newsz else oldsz
  {
    hide Inv, Released, OwnsFrame, Pages, Machine.Valid, StartsIn;
    ShrinkRange(oldsz, newsz);
    if newsz >= oldsz {
      ReleasedEmpty(k.view, root, Free);
      PagesEmpty(ShrinkLo(newsz));
      return oldsz;
    }
    if PgRoundUp(newsz) < PgRoundUp(oldsz) {
      var npages := (PgRoundUp(oldsz) - PgRoundUp(newsz)) / PGSIZE;
      assert npages < 0x8000_0000;   // fits the int it is kept in
      UvmUnmap(k, pagetable, PgRoundUp(newsz), npages, true, root);
    } else {
      ReleasedEmpty(k.view, root, Free);
      PagesEmpty(ShrinkLo(newsz));
    }
    r := newsz;
  }

  /** The failure path of uvmalloc: uvmdealloc back to the old size. */
  method UndoGrowth(k: Machine, pagetable: Word, a: Word, lo0: Word, ghost s0: View, ghost s: View,
      ghost want: map<nat, Want>, ghost root: nat)
    requires Ok(k) && IsRoot(k.view, root) && pagetable == root * 4096 && a <= MAXVA && lo0 <= a
             && lo0 % 4096 == 0 && a % 4096 == 0
    requires Inv(s0) && IsRoot(s0, root) && Expanded(s0, s, root, want) && Grown(s, k.view, root)
    requires AbsMap(k.view.mem, root) == AbsMap(s.mem, root) && want.Keys == Pages(lo0 / 4096, (a - lo0) / 4096)
    requires forall v :: lo0 / 4096 <= v < a / 4096 ==> v !in AbsMap(s0.mem, root)
    modifies k`view, k`freelist, k.ram
    ensures Ok(k) && IsRoot(k.view, root) && Grown(s0, k.view, root) && AbsMap(k.view.mem, root) == AbsMap(s0.mem, root)
  {
    hide AbsMap, Inv, Released, OwnsFrame, Pages, Machine.Valid, Expanded, Grown, NeededOf, Positions;
    ghost var s3 := k.view;
    ShrinkAligned(a, lo0);
    forall v: nat | StartsIn(lo0, v, a) ensures OwnsFrame(s3, root, v) {
      OwnsUnmapped(s0, root, v);
      ExpandedOwns(s0, s, s3, root, want, v);
    }
    var _ := UvmDealloc(k, pagetable, a, lo0, root);
    DisjointRange(AbsMap(s0.mem, root), lo0 / 4096, (a - lo0) / 4096);
    UndoExpansion(s0, s, s3, k.view, root, want, want.Keys);
    UndoneIsGrown(s0, k.view, root, want.Keys);
  }

  lemma ShrinkAligned(a: Word, lo0: Word)
    requires lo0 <= a <= MAXVA && lo0 % 4096 == 0 && a % 4096 == 0
    ensures ShrinkLo(lo0) == lo0 / 4096 && ShrinkCount(a, lo0) == (a - lo0) / 4096 == a / 4096 - lo0 / 4096
  {
  }

  lemma DisjointRange(m: map<nat, Word>, lo: nat, n: nat)
    requires forall v :: lo <= v < lo + n ==> v !in m
    ensures m.Keys !! Pages(lo, n)
  {
  }

  /** The pages that growing from oldsz to newsz adds. */
  ghost function GrowPages(oldsz: Word, newsz: Word): set<nat> {
    Pages(PgRoundUp(oldsz) / 4096, GrowCount(oldsz, newsz))
  }

  function GrowCount(oldsz: Word, newsz: Word): nat {
    var lo, hi := PgRoundUp(oldsz) / 4096, (newsz + 4095) / 4096;
    if lo < hi then hi - lo else 0
  }

  lemma GrownRange(oldsz: Word, newsz: Word)
    requires oldsz <= newsz <= MAXVA
    ensures forall v: nat :: v in GrowPages(oldsz, newsz) <==> StartsIn(oldsz, v, newsz)
  {
    hide GrowPages, StartsIn;
    forall v: nat ensures v in GrowPages(oldsz, newsz) <==> StartsIn(oldsz, v, newsz) {
      GrownPages(oldsz, newsz, v);
    }
  }

  /** A zero page with the permissions that growth gives, at every page of d. */
  ghost function ZeroPages(d: set<nat>, xperm: Perm): map<nat, Want> {
    map v | v in d :: Want(WithReadUser(xperm), Filled(0))
  }

  /** Grows a process from oldsz to newsz bytes: all of it, or nothing but tables and the result 0. */
  method UvmAlloc(k: Machine, pagetable: Word, oldsz: Word, newsz: Word, xperm: Perm, ghost root: nat) returns (r: Word)
    requires Ok(k) && IsRoot(k.view, root) && pagetable == root * 4096
    requires newsz < oldsz || newsz <= MAXVA
    requires forall v: nat :: StartsIn(oldsz, v, newsz) ==> v !in AbsMap(k.view.mem, root)
    modifies k`view, k`freelist, k.ram
    ensures Ok(k) && IsRoot(k.view, root)
    ensures newsz < oldsz ==> r == oldsz && k.view == old(k.view)
    ensures newsz >= oldsz ==>
              var s, d := old(k.view), GrowPages(oldsz, newsz);
              && (forall v: nat :: v in d <==> StartsIn(oldsz, v, newsz))
              && (r == newsz || r == 0)
              && (r == newsz ==> Expanded(s, k.view, root, ZeroPages(d, xperm)))
              && (r != newsz ==> Grown(s, k.view, root) && AbsMap(k.view.mem, root) == AbsMap(s.mem, root))
              && (r == newsz <==> |s.free| >= |d| + TableCost(s, root, d))
  {
    hide AbsMap, Inv, Released, OwnsFrame, Pages, Machine.Valid, Expanded, Grown, NeededOf, Positions, Px, MakePte,
        WithReadUser,
         IsLeaf, Ppn, TableCost, GrowCount, GrowPages, Pop, AllocFill, ZeroPages, PgRoundUp, SetPage, Repeated,
         StartsIn;
    if newsz < oldsz { return oldsz; }
    GrownRange(oldsz, newsz);
    var lo0 := PgRoundUp(oldsz);
    ghost var s0, lo, n, full := k.view, lo0 / 4096, GrowCount(oldsz, newsz), GrowPages(oldsz, newsz);
    ghost var j := 0;
    PagesEmpty(lo);
    ExpandedEmpty(s0, root);
    ZeroPagesEmpty(lo, xperm);
    ReadUserBits(xperm);
    var a := lo0;
    while a < newsz
      invariant 0 <= j <= n && a == lo0 + j * 4096 && Ok(k) && IsRoot(k.view, root)
      invariant Expanded(s0, k.view, root, ZeroPages(Pages(lo, j), xperm))
      decreases n - j
    {
      ghost var s, v, want := k.view, lo + j, ZeroPages(Pages(lo, j), xperm);
      GrowRound(s0, s, root, oldsz, newsz, xperm, j);
      var mem := k.Kalloc();
      if mem == 0 {
        assert s.free == [];
        ExpansionShort(s0, s, root, want, v, full);
        GrownRefl(s, root);
        UndoGrowth(k, pagetable, a, lo0, s0, s, want, root);
        return 0;
      }
      ghost var q := s.free[0];
      AllocPageInv(s, Filled(0));
      RepeatedJunk();
      k.MemsetPage(mem, 0, q);
      var m := MapOrFree(k, pagetable, a, mem, WithReadUser(xperm), s, Filled(0), root);
      if m != 0 {
        ExpansionShort(s0, s, root, want, v, full);
        UndoGrowth(k, pagetable, a, lo0, s0, s, want, root);
        return 0;
      }
      ExpandedTransitive(s0, s, k.view, root, want, v, Want(WithReadUser(xperm), Filled(0)));
      a := a + PGSIZE;
      j := j + 1;
    }
    GrowEnd(oldsz, newsz, xperm, j);
    ExpansionCost(s0, k.view, root, ZeroPages(full, xperm));
    r := newsz;
  }

  /** What a round of growth needs to know about the page it is at. */
  lemma GrowRound(s0: View, s: View, root: nat, oldsz: Word, newsz: Word, xperm: Perm, j: nat)
    requires oldsz <= newsz <= MAXVA && PgRoundUp(oldsz) + j * 4096 < newsz
    requires Expanded(s0, s, root, ZeroPages(Pages(PgRoundUp(oldsz) / 4096, j), xperm))
    requires forall u :: u in GrowPages(oldsz, newsz) ==> u !in AbsMap(s0.mem, root)
    ensures j < GrowCount(oldsz, newsz) && PgRoundUp(oldsz) % 4096 == 0
    ensures var lo0, lo := PgRoundUp(oldsz), PgRoundUp(oldsz) / 4096;
            var a, v, want := lo0 + j * 4096, lo + j, ZeroPages(Pages(lo, j), xperm);
            && a / 4096 == v && a % 4096 == 0 && v < MAXVPN && v !in AbsMap(s.mem, root)
            && v !in want && want.Keys + {v} <= GrowPages(oldsz, newsz) && want.Keys == Pages(lo, (a - lo0) / 4096)
            && ZeroPages(Pages(lo, j + 1), xperm) == want[v := Want(WithReadUser(xperm), Filled(0))]
            && (forall u :: lo <= u < a / 4096 ==> u !in AbsMap(s0.mem, root))
  {
    hide AbsMap, Expanded, WithReadUser, ZeroPages, GrowCount, PgRoundUp, Pages;
    var lo := PgRoundUp(oldsz) / 4096;
    GrowRange(oldsz, newsz, j);
    PagesStep(lo, j);
    ZeroPagesKeys(lo, j, xperm);
    PagesWithin(lo, j, GrowCount(oldsz, newsz));
    ExpandedUnmapped(s0, s, root, ZeroPages(Pages(lo, j), xperm), lo + j);
    ZeroPagesStep(lo, j, xperm);
  }

  lemma GrowRange(oldsz: Word, newsz: Word, j: nat)
    requires oldsz <= newsz <= MAXVA && PgRoundUp(oldsz) + j * 4096 < newsz
    ensures j < GrowCount(oldsz, newsz) && PgRoundUp(oldsz) / 4096 + j < MAXVPN
    ensures var a, v := PgRoundUp(oldsz) + j * 4096, PgRoundUp(oldsz) / 4096 + j;
            a == v * 4096 && a / 4096 == v && a % 4096 == 0 && v in GrowPages(oldsz, newsz)
    ensures PgRoundUp(oldsz) % 4096 == 0
    ensures forall u :: PgRoundUp(oldsz) / 4096 <= u < PgRoundUp(oldsz) / 4096 + j ==> u in GrowPages(oldsz, newsz)
  {
  }

  lemma GrowEnd(oldsz: Word, newsz: Word, xperm: Perm, j: nat)
    requires oldsz <= newsz <= MAXVA && PgRoundUp(oldsz) + j * 4096 >= newsz && j <= GrowCount(oldsz, newsz)
    ensures Pages(PgRoundUp(oldsz) / 4096, j) == GrowPages(oldsz, newsz)
    ensures ZeroPages(GrowPages(oldsz, newsz), xperm).Keys == GrowPages(oldsz, newsz)
    ensures |ZeroPages(GrowPages(oldsz, newsz), xperm)| == |GrowPages(oldsz, newsz)|
  {
    hide WithReadUser, ZeroPages, Pages;
    ZeroPagesKeys(PgRoundUp(oldsz) / 4096, j, xperm);
  }

  lemma ZeroPagesEmpty(lo: nat, xperm: Perm)
    ensures ZeroPages(Pages(lo, 0), xperm) == map[]
  {
    PagesEmpty(lo);
    hide WithReadUser;
    assert ZeroPages({}, xperm) == map[];
  }

  lemma ZeroPagesKeys(lo: nat, j: nat, xperm: Perm)
    ensures ZeroPages(Pages(lo, j), xperm).Keys == Pages(lo, j)
            && |ZeroPages(Pages(lo, j), xperm)| == j == |Pages(lo, j)|
  {
    hide WithReadUser;
    PagesSize(lo, j);
    var m := ZeroPages(Pages(lo, j), xperm);
    assert m.Keys == Pages(lo, j);
    assert |m.Keys| == |m|;
  }

  lemma ZeroPagesStep(lo: nat, j: nat, xperm: Perm)
    ensures ZeroPages(Pages(lo, j + 1), xperm) ==
            ZeroPages(Pages(lo, j), xperm)[lo + j := Want(WithReadUser(xperm), Filled(0))]
  {
    hide WithReadUser;
    PagesStep(lo, j);
  }

  lemma FreeCount(s: View, page: seq<Word>)
    requires |s.free| > 0 && ListAddr(s.free, 1) < WORD_MODULUS && s.free[0] < |s.mem|
    ensures |AllocFill(s, page).free| == |s.free| - 1
  {
  }

  /** The part of a round of uvmcopy that can fail: a new page with the contents of page o, mapped at i. */
  method CopyPage(k: Machine, newTable: Word, i: Word, pa: Word, flags: Perm, ghost o: nat,
      ghost child: nat) returns (m: int)
    requires Ok(k) && IsRoot(k.view, child) && newTable == child * 4096 && Readable(k.view, o) && pa == o * 4096
             && |k.view.mem[o]| == SLOTS
    requires i % 4096 == 0 && i < MAXVA && i / 4096 !in AbsMap(k.view.mem, child) && IsLeaf(flags)
    modifies k`view, k`freelist, k.ram
    ensures Ok(k) && IsRoot(k.view, child)
    ensures m == 0 ==> Expanded(old(k.view), k.view, child, map[i / 4096 := Want(flags, old(k.view.mem[o]))])
    ensures m != 0 ==>
              var s := old(k.view);
              && Grown(s, k.view, child) && AbsMap(k.view.mem, child) == AbsMap(s.mem, child)
              && |s.free| <= TableCost(s, child, {i / 4096})
  {
    hide AbsMap, Inv, Machine.Valid, Expanded, Grown, IsLeaf, TableCost, Pop, AllocFill, SetPage;
    ghost var s := k.view;
    var mem := k.Kalloc();
    if mem == 0 {
      GrownRefl(s, child);
      return -1;
    }
    ghost var q := s.free[0];
    AllocPageInv(s, s.mem[o]);
    CopyKeepsSource(s, o);
    k.MemmovePage(mem, pa, q, o);
    m := MapOrFree(k, newTable, i, mem, flags, s, s.mem[o], child);
  }

  /** Copies the first sz bytes of one address space into another: all of it, or -1. The page that fails is the first
      for which the free pages do not suffice; everything that the child maps below it is then gone: what was copied,
      and what it mapped there before. */
  method UvmCopy(k: Machine, oldTable: Word, newTable: Word, sz: Word, ghost parent: nat, ghost child: nat)
    returns (r: int)
    requires Ok(k) && IsRoot(k.view, parent) && IsRoot(k.view, child) && parent != child
    requires oldTable == parent * 4096 && newTable == child * 4096 && sz <= MAXVA
    requires forall v :: 0 <= v < PgRoundUp(sz) / 4096 && v in AbsMap(k.view.mem, parent) ==>
               v !in AbsMap(k.view.mem, child)
    requires forall v :: 0 <= v < PgRoundUp(sz) / 4096 ==> OwnsFrame(k.view, child, v)
    requires forall v :: v in AbsMap(k.view.mem, parent) && v < PgRoundUp(sz) / 4096 ==>
               Readable(k.view, Ppn(AbsMap(k.view.mem, parent)[v]))
    modifies k`view, k`freelist, k.ram
    ensures Ok(k) && IsRoot(k.view, parent) && IsRoot(k.view, child)
    ensures var s, n := old(k.view), PgRoundUp(sz) / 4096;
            && (r == 0 || r == -1)
            && (forall v: nat :: v < n <==> StartsIn(0, v, sz))
            && AbsMap(k.view.mem, parent) == AbsMap(s.mem, parent)
            && (r == 0 ==> Expanded(s, k.view, child, CopyWant(s, parent, n)))
            && (r == -1 ==>
                  exists j: nat :: j < n && CopyFailsAt(s, parent, child, j) && Undone(s, k.view, child, Pages(0, j)))
            && (r == 0 <==> |s.free| >= CopyCost(s, parent, child, n))
  {
    hide AbsMap, Inv, Released, OwnsFrame, Pages, Machine.Valid, Expanded, Grown, NeededOf, Positions, Px, MakePte,
         IsLeaf, Ppn, TableCost, Pop, AllocFill, SetPage, CopyWant, PteFlags, IsValid, Pte2Pa, TableAt, Readable,
         Undone, CopyCost, CopyFailsAt, StartsIn;
    ghost var s0, n := k.view, PgRoundUp(sz) / 4096;
    CopiedRange(sz);
    CopyWantEmpty(s0, parent);
    ExpandedEmpty(s0, child);
    var i := 0;
    ghost var j := 0;
    while i < sz
      invariant 0 <= j <= n && i == j * 4096 && Ok(k) && IsRoot(k.view, parent) && IsRoot(k.view, child)
      invariant Expanded(s0, k.view, child, CopyWant(s0, parent, j))
      decreases n - j
    {
      ghost var s, want := k.view, CopyWant(s0, parent, j);
      assert i / 4096 == j && j < n && i < MAXVA;
      CopySource(s0, s, parent, child, want, n, j);
      var pte, t := Walk(k, oldTable, i, false, parent);
      var mapped := false;
      var w: Word := 0;
      if pte != 0 {
        LeafEntry(s, parent, j, t);
        w := k.Load(pte, t, Px(0, j));
        mapped := IsValid(w);
      }
      NoLeafEntry(s, parent, j);
      if mapped {
        ghost var o := Ppn(w);
        var pa := Pte2Pa(w);
        var flags := PteFlags(w);
        CopyRound(s0, s, parent, child, n, j);
        var m := CopyPage(k, newTable, i, pa, flags, o, child);
        if m != 0 {
          CopyShort(s0, s, parent, child, n, j);
          UndoCopy(k, newTable, i, s0, s, want, parent, child);
          return -1;
        }
        ExpandedOthers(s, k.view, child, map[j := Want(flags, s0.mem[o])], parent);
        ExpandedTransitive(s0, s, k.view, child, want, j, Want(flags, s0.mem[o]));
      }
      i := i + PGSIZE;
      j := j + 1;
    }
    assert j == n;
    ExpandedOthers(s0, k.view, child, CopyWant(s0, parent, n), parent);
    CopyPaid(s0, k.view, parent, child, n);
    r := 0;
  }

  lemma CopiedRange(sz: Word)
    requires sz <= MAXVA
    ensures forall v: nat :: v < PgRoundUp(sz) / 4096 <==> StartsIn(0, v, sz)
  {
    hide PgRoundUp;
    forall v: nat ensures v < PgRoundUp(sz) / 4096 <==> StartsIn(0, v, sz) {
      RoundUpPage(sz, v);
    }
  }

  /** Partway through the copy the parent is as it was: same mappings, same contents. */
  lemma CopySource(s0: View, s: View, parent: nat, child: nat, want: map<nat, Want>, n: nat, j: nat)
    requires Inv(s0) && Inv(s) && IsRoot(s0, parent) && IsRoot(s, parent) && parent != child && j < n
             && want == CopyWant(s0, parent, j)
    requires Expanded(s0, s, child, want)
    requires forall v :: v in AbsMap(s0.mem, parent) && v < n ==> Readable(s0, Ppn(AbsMap(s0.mem, parent)[v]))
    ensures AbsMap(s.mem, parent) == AbsMap(s0.mem, parent) && j !in want
    ensures j in AbsMap(s.mem, parent) ==>
              var w := AbsMap(s.mem, parent)[j];
              && IsValid(w) && IsLeaf(w) && Ppn(w) < |s.mem| == |s0.mem| && s.mem[Ppn(w)] == s0.mem[Ppn(w)]
                 && |s0.mem[Ppn(w)]| == SLOTS
              && Readable(s, Ppn(w))
              && j in CopyWant(s0, parent, j + 1)
              && CopyWant(s0, parent, j + 1) == want[j := Want(PteFlags(w), s0.mem[Ppn(w)])]
    ensures j !in AbsMap(s.mem, parent) ==> CopyWant(s0, parent, j + 1) == want
  {
    hide AbsMap, ExpandedCount, ExpandedMap, FreeListOk, EdgesOk, LeavesOk, NodesOk, FramesOk, Ppn, IsValid, IsLeaf,
        CopyWant, PteFlags;
    ExpandedOthers(s0, s, child, want, parent);
    CopyWantStep(s0, parent, j);
    if j in AbsMap(s.mem, parent) {
      MappedIsValid(s, parent, j);
    }
  }

  /** What a round that copies page j needs to know. */
  lemma CopyRound(s0: View, s: View, parent: nat, child: nat, n: nat, j: nat)
    requires Inv(s) && j < n && j in AbsMap(s0.mem, parent) && Ppn(AbsMap(s0.mem, parent)[j]) < |s.mem| == |s0.mem|
    requires j !in CopyWant(s0, parent, j) && j in CopyWant(s0, parent, j + 1) && j !in AbsMap(s0.mem, child)
    requires Expanded(s0, s, child, CopyWant(s0, parent, j)) && IsLeaf(AbsMap(s0.mem, parent)[j])
    ensures var want, w := CopyWant(s0, parent, j), AbsMap(s0.mem, parent)[j];
            && want.Keys + {j} <= CopyWant(s0, parent, n).Keys && want.Keys <= Pages(0, j)
            && j !in AbsMap(s.mem, child)
            && Pte2Pa(w) == Ppn(w) * 4096 && IsLeaf(PteFlags(w)) && PteFlags(w) < 1024
  {
    hide AbsMap, Expanded, Ppn, CopyWant, IsLeaf, PteFlags, Pte2Pa, FreeListOk, NodesOk, EdgesOk, LeavesOk, FramesOk;
    var w := AbsMap(s0.mem, parent)[j];
    CopyWantMono(s0, parent, j + 1, n);
    CopyWantMono(s0, parent, j, n);
    ExpandedUnmapped(s0, s, child, CopyWant(s0, parent, j), j);
    PteOfPage(w, Ppn(w));
    FlagsOfEntry(w);
    FlagsRange(w);
  }

  lemma FlagsRange(w: Word)
    ensures PteFlags(w) < 1024
  {
  }

  lemma CopyKeepsSource(s: View, o: nat)
    requires |s.free| > 0 && s.free[0] in s.role && s.role[s.free[0]] == Free && s.free[0] < |s.mem|
             && ListAddr(s.free, 1) < WORD_MODULUS && Readable(s, o)
    ensures |Pop(s).mem| == |s.mem| && Pop(s).mem[o] == s.mem[o]
  {
  }

  /** The failure path of uvmcopy: uvmunmap of what was copied. */
  method UndoCopy(k: Machine, newTable: Word, i: Word, ghost s0: View, ghost s: View, ghost want: map<nat, Want>,
      ghost parent: nat, ghost child: nat)
    requires Ok(k) && IsRoot(k.view, child) && newTable == child * 4096 && i <= MAXVA && i % 4096 == 0
    requires Inv(s0) && IsRoot(s0, parent) && parent != child && Expanded(s0, s, child, want) && Grown(s, k.view, child)
    requires AbsMap(k.view.mem, child) == AbsMap(s.mem, child) && want.Keys <= Pages(0, i / 4096)
    requires forall v :: 0 <= v < i / 4096 ==> OwnsFrame(s0, child, v)
    modifies k`view, k`freelist, k.ram
    ensures Ok(k) && IsRoot(k.view, child) && Undone(s0, k.view, child, Pages(0, i / 4096))
    ensures IsRoot(k.view, parent) && AbsMap(k.view.mem, parent) == AbsMap(s0.mem, parent)
  {
    hide AbsMap, Inv, Released, OwnsFrame, Pages, Machine.Valid, Expanded, Grown, NeededOf, Positions, Undone;
    ghost var s3 := k.view;
    forall v | 0 <= v < i / 4096 ensures OwnsFrame(s3, child, v) {
      ExpandedOwns(s0, s, s3, child, want, v);
    }
    UvmUnmap(k, newTable, 0, i / PGSIZE, true, child);
    UndoExpansion(s0, s, s3, k.view, child, want, Pages(0, i / 4096));
    UndoneOthers(s0, k.view, child, Pages(0, i / 4096), parent);
  }

  /** Frees table p and every table below it. All leaves must be gone already. */
  method FreeWalk(k: Machine, pagetable: Word, ghost p: nat, ghost level: nat, ghost holes: set<(nat, nat)>)
    requires k.Valid() && InvExcept(k.view, holes) && HolesAbove(k.view, p, holes) && NoLeaves(k.view, p)
    requires pagetable == p * 4096 && p < |k.view.mem| && k.view.role[p].level == level
    modifies k`view, k`freelist, k.ram
    ensures k.Valid() && InvExcept(k.view, holes)
    ensures k.view.role == FreeBelow(old(k.view.role), p)
    ensures KeepsLive(old(k.view), k.view, {})
    decreases level
  {
    hide InvExcept, Progress, FreeBelow, KeepsLive, NoLeaves, Machine.Valid, IsValid, IsLeaf, Ppn, Pte2Pa, HolesAbove;
    ghost var s0 := k.view;
    AboveIsTable(s0, p, holes);
    ShapeOf(s0, holes);
    ProgressStart(s0, p);
    var i := 0;
    while i < 512
      invariant 0 <= i <= 512 && k.Valid() && InvExcept(k.view, holes) && Shape(k.view)
      invariant p < |k.view.mem| && IsTable(k.view, p) && k.view.role[p] == s0.role[p]
      invariant Progress(s0, k.view, p, i)
    {
      ghost var s := k.view;
      StillAbove(s0, s, p, i, holes);
      var pte := k.Load(pagetable + i * 8, p, i);
      if IsValid(pte) && !IsLeaf(pte) {
        var child := Pte2Pa(pte);
        ghost var c := Ppn(pte);
        ChildEntry(s0, s, p, i, holes);
        MoreHoles(s, holes, (p, i));
        FreeWalk(k, child, c, level - 1, holes + {(p, i)});
        ProgressChild(s0, s, k.view, p, i, c, holes);
        LiveShape(s, k.view, holes + {(p, i)});
        k.Store(pagetable + i * 8, 0, p, i);
      } else if IsValid(pte) {
        ChildEntry(s0, s, p, i, holes);
        assert false;   // panic: the leaves are gone
      } else {
        ProgressSkip(s0, s, p, i, holes);
      }
      ShapeOf(k.view, holes);
      i := i + 1;
    }
    StillAbove(s0, k.view, p, i, holes);
    ProgressEnd(s0, k.view, p, holes);
    k.Relabel(p, Held(0));
    k.Kfree(pagetable, p);
  }

  /** Frees a whole process image of sz bytes: its frames, then its tables. */
  method UvmFree(k: Machine, pagetable: Word, sz: Word, ghost root: nat)
    requires Ok(k) && IsRoot(k.view, root) && pagetable == root * 4096 && sz <= MAXVA
    requires forall v :: v in AbsMap(k.view.mem, root) ==> v < PgRoundUp(sz) / 4096 && OwnsFrame(k.view, root, v)
    modifies k`view, k`freelist, k.ram
    ensures Ok(k) && k.view.role == FreeTree(old(k.view.role), root) && KeepsLive(old(k.view), k.view, {})
  {
    hide AbsMap, Machine.Valid, FreeListOk, NodesOk, EdgesOk, LeavesOk, FramesOk, Released, OwnsFrame, FreeTree,
        KeepsLive, NoLeaves, HolesAbove, FreeBelow;
    ghost var s, n := k.view, PgRoundUp(sz) / 4096;
    forall v | 0 <= v < n ensures OwnsFrame(s, root, v) {
      OwnsUnmapped(s, root, v);
    }
    if sz > 0 {
      UvmUnmap(k, pagetable, 0, PgRoundUp(sz) / PGSIZE, true, root);
    } else {
      ReleasedEmpty(s, root, Free);
      PagesEmpty(0);
    }
    ghost var s1 := k.view;
    AllReleased(s, s1, root, n);
    EmptyTree(s1, root);
    FreeTreeRoles(s, s1, root, Pages(0, n));
    FreeWalk(k, pagetable, root, 2, {});
    KeepsLiveTree(s, s1, k.view, root, Pages(0, n));
  }

  lemma OwnsUnmapped(s: View, root: nat, v: nat)
    ensures v !in AbsMap(s.mem, root) ==> OwnsFrame(s, root, v)
  {
    hide AbsMap;
  }

  lemma AllReleased(s: View, s1: View, root: nat, n: nat)
    requires Released(s, s1, root, Pages(0, n), Free) && forall v :: v in AbsMap(s.mem, root) ==> v < n
    ensures AbsMap(s.mem, root).Keys <= Pages(0, n) && AbsMap(s1.mem, root) == map[]
  {
    hide AbsMap;
  }

  lemma ShapeOf(s: View, holes: set<(nat, nat)>)
    requires InvExcept(s, holes)
    ensures Shape(s)
  {
  }

  lemma AboveIsTable(s: View, p: nat, holes: set<(nat, nat)>)
    requires HolesAbove(s, p, holes)
    ensures IsTable(s, p)
  {
  }

  /** Nothing above p is touched while p is taken down. */
  lemma StillAbove(s0: View, s: View, p: nat, i: nat, holes: set<(nat, nat)>)
    requires InvExcept(s0, holes) && Shape(s) && p < |s0.mem| && HolesAbove(s0, p, holes) && Progress(s0, s, p, i)
             && IsTable(s, p) && s.role[p] == s0.role[p]
    ensures HolesAbove(s, p, holes)
  {
    hide FreeListOk, EdgesOk, LeavesOk, FramesOk, MakePte;
    forall h | h in holes ensures IsTable(s, h.0) && s.role[h.0].level > s.role[p].level {
      assert NodeOk(s0, h.0);
      if IsTable(s0, s0.role[h.0].parent) {
        assert NodeOk(s0, s0.role[h.0].parent);
      }
    }
  }

  lemma LiveShape(s: View, s': View, holes: set<(nat, nat)>)
    requires KeepsLive(s, s', {}) && InvExcept(s', holes)
    ensures |s'.mem| == |s.mem| && Shape(s')
  {
  }
}
