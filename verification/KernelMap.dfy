/** The kernel's own page table (kvmmake in vm.c). */
module KernelMap {
  import opened Riscv
  import opened PageTable
  import opened Translation
  import opened Ownership
  import opened Building
  import opened Kalloc
  import opened Vm
  import opened Sets

  const TEXT: Perm := 10         // PTE_R | PTE_X
  const DATA: Perm := 6          // PTE_R | PTE_W

  /** Pages lo .. hi - 1 mapped to themselves. */
  ghost function Identity(lo: nat, hi: nat, perm: Perm): map<nat, Word>
    requires lo <= hi <= MAXPAGES
  {
    RangeMap(lo, hi - lo, lo, perm)
  }

  /** Text readable and executable, the rest of RAM readable and writable, and the trampoline on top. */
  ghost function KernelMappings(etext: Word, trampoline: Word): map<nat, Word>
    requires KERNBASE < etext < PHYSTOP && trampoline / 4096 < MAXPAGES
  {
    Identity(KERNBASE / 4096, etext / 4096, TEXT) + Identity(etext / 4096, PHYSTOP / 4096, DATA)
    + RangeMap(TRAMPOLINE / 4096, 1, trampoline / 4096, TEXT)
  }

  /** kvmmap: mappages, which must not fail. */
  method KvmMap(k: Machine, kpgtbl: Word, va: Word, pa: Word, sz: Word, perm: Perm, ghost root: nat)
    requires Ok(k) && IsRoot(k.view, root) && kpgtbl == root * 4096
    requires va % 4096 == 0 && sz % 4096 == 0 && sz > 0 && va + sz <= MAXVA
    requires pa / 4096 + sz / 4096 <= MAXPAGES && IsLeaf(perm)
    requires forall v :: va / 4096 <= v < va / 4096 + sz / 4096 ==> v !in AbsMap(k.view.mem, root)
    requires |k.view.free| >= TableCost(k.view, root, Pages(va / 4096, sz / 4096))
    modifies k`view, k`freelist, k.ram
    ensures Ok(k) && IsRoot(k.view, root) && Grown(old(k.view), k.view, root)
    ensures AbsMap(k.view.mem, root) == AbsMap(old(k.view.mem), root) + RangeMap(va / 4096, sz / 4096, pa / 4096, perm)
    ensures Positions(k.view, root) == Positions(old(k.view), root) + NeededOf(Pages(va / 4096, sz / 4096))
  {
    hide AbsMap, Inv, Machine.Valid, Grown, NeededOf, Positions, Pages, RangeMap, TableCost, IsLeaf;
    var r := MapPages(k, kpgtbl, va, sz, pa, perm, root);
    assert r == 0;   // panic: kvmmap
  }

  // ---------------------------------------------------------------- the tables it needs

  /** n level-0 places from prefix p on. */
  function LeafTables(p: nat, n: nat): set<(nat, nat)> {
    if n == 0 then {} else LeafTables(p, n - 1) + {(0, p + n - 1)}
  }

  lemma {:induction false} LeafTablesSize(p: nat, n: nat)
    ensures |LeafTables(p, n)| == n
    ensures forall x :: x in LeafTables(p, n) <==> x.0 == 0 && p <= x.1 < p + n
  {
    if n > 0 {
      LeafTablesSize(p, n - 1);
    }
  }

  /** Every place the kernel's tree has a table at. */
  function KernelTables(): set<(nat, nat)> {
    {(2, 0), (1, 2), (1, 255), (0, 131071)} + LeafTables(1024, 64)
  }

  lemma KernelTablesSize()
    ensures |KernelTables()| == 68
  {
    hide LeafTables;
    LeafTablesSize(1024, 64);
    var top: set<(nat, nat)> := {(2, 0), (1, 2), (1, 255), (0, 131071)};
    assert top !! LeafTables(1024, 64);
    assert |top| == 4;
  }

  /** RAM spans 64 level-0 tables below one level-1 table. */
  lemma RamTables()
    ensures NeededOf(Pages(KERNBASE / 4096, 0x8000)) == {(1, 2)} + LeafTables(1024, 64)
  {
    hide LeafTables;
    LeafTablesSize(1024, 64);
    var d := Pages(KERNBASE / 4096, 0x8000);
    var r: set<(nat, nat)> := {(1, 2)} + LeafTables(1024, 64);
    forall x | x in NeededOf(d) ensures x in r {
      var v :| v in d && x in Needed(v);
      assert 0x8_0000 <= v < 0x8_8000;
      RamPrefix(v);
    }
    forall x | x in r ensures x in NeededOf(d) {
      var v := if x.0 == 1 then 0x8_0000 else x.1 * 512;
      assert v in d by { assert InRange(0x8_0000, 0x8000, v); }
      assert x in Needed(v);
    }
  }

  lemma RamPrefix(v: nat)
    requires 0x8_0000 <= v < 0x8_8000
    ensures Prefix(1, v) == 2 && 1024 <= Prefix(0, v) < 1088
  {
  }

  lemma TrampolineTables()
    ensures NeededOf(Pages(TRAMPOLINE / 4096, 1)) == {(1, 255), (0, 131071)}
  {
    PagesStep(TRAMPOLINE / 4096, 0);
    PagesEmpty(TRAMPOLINE / 4096);
    NeededOfAdd({}, TRAMPOLINE / 4096);
    assert NeededOf({}) == {};
  }

  /** While a tree's tables are among the 68, and as many pages are free as it still lacks, no mapping in them fails. */
  lemma EnoughPages(s: View, root: nat, d: set<nat>)
    requires Positions(s, root) <= KernelTables() && NeededOf(d) <= KernelTables()
    requires |s.free| + |Positions(s, root)| >= 68
    ensures |s.free| >= TableCost(s, root, d)
  {
    KernelTablesSize();
    hide Positions, NeededOf, KernelTables;
    var p, need, all := Positions(s, root), NeededOf(d), KernelTables();
    SubsetSize(need - p, all - p);
    assert all == p + (all - p) && p !! (all - p);
  }

  // ---------------------------------------------------------------- kvmmake

  /** Builds the kernel map, nothing but it, from exactly 68 free pages. */
  method KvmMake(k: Machine, etext: Word, trampoline: Word) returns (kpgtbl: Word, ghost root: nat)
    requires Ok(k) && |k.view.free| >= 68
    requires etext % 4096 == 0 && KERNBASE < etext < PHYSTOP && trampoline / 4096 < MAXPAGES
    modifies k`view, k`freelist, k.ram
    ensures Ok(k) && IsRoot(k.view, root) && kpgtbl == root * 4096
    ensures AbsMap(k.view.mem, root) == KernelMappings(etext, trampoline)
    ensures Positions(k.view, root) == KernelTables()
    ensures |k.view.free| == |old(k.view.free)| - 68
    ensures LiveKept(old(k.view), k.view)
  {
    hide LiveKept, AbsMap, Inv, Machine.Valid, Grown, NeededOf, Positions, Pages, RangeMap, TableCost, IsLeaf,
         KernelTables,
        LeafTables;
    ghost var s0 := k.view;
    kpgtbl, root := UvmCreate(k);
    ghost var s := k.view;
    RootInRam(s0, root);
    LiveKeptCreate(s0, s, root);
    TextTables(etext);
    TextSizes(etext);
    KernelKeys(etext, trampoline);
    LeafPerms();
    EnoughPages(s, root, Pages(KERNBASE / 4096, etext / 4096 - KERNBASE / 4096));
    KvmMap(k, kpgtbl, KERNBASE, KERNBASE, etext - KERNBASE, TEXT, root);
    ghost var s1 := k.view;
    LiveKeptGrown(s0, s, s1, root);
    GrownSize(s, s1, root);
    assert AbsMap(s1.mem, root) == Identity(KERNBASE / 4096, etext / 4096, TEXT);
    EnoughPages(s1, root, Pages(etext / 4096, PHYSTOP / 4096 - etext / 4096));
    KvmMap(k, kpgtbl, etext, etext, PHYSTOP - etext, DATA, root);
    ghost var s2 := k.view;
    LiveKeptGrown(s0, s1, s2, root);
    GrownSize(s1, s2, root);
    assert AbsMap(s2.mem, root) == Identity(KERNBASE / 4096, etext / 4096, TEXT) + Identity(etext / 4096,
        PHYSTOP / 4096, DATA);
    EnoughPages(s2, root, Pages(TRAMPOLINE / 4096, 1));
    KvmMap(k, kpgtbl, TRAMPOLINE, trampoline, PGSIZE, TEXT, root);
    LiveKeptGrown(s0, s2, k.view, root);
    GrownSize(s2, k.view, root);
    KernelTablesSize();
  }

  lemma RootInRam(s: View, root: nat)
    requires Inv(s) && root in s.role
    ensures root < |s.mem|
  {
  }

  lemma TextSizes(etext: Word)
    requires etext % 4096 == 0 && KERNBASE < etext < PHYSTOP
    ensures (etext - KERNBASE) / 4096 == etext / 4096 - KERNBASE / 4096 && (etext - KERNBASE) % 4096 == 0
    ensures (PHYSTOP - etext) / 4096 == PHYSTOP / 4096 - etext / 4096 && (PHYSTOP - etext) % 4096 == 0
  {
  }

  lemma LeafPerms()
    ensures IsLeaf(TEXT) && IsLeaf(DATA)
  {
  }

  /** The three ranges need exactly the kernel's tables. */
  lemma TextTables(etext: Word)
    requires etext % 4096 == 0 && KERNBASE < etext < PHYSTOP
    ensures var t := etext / 4096;
            var a, b, c := NeededOf(Pages(KERNBASE / 4096, t - KERNBASE / 4096)), NeededOf(Pages(t,
                PHYSTOP / 4096 - t)), NeededOf(Pages(TRAMPOLINE / 4096, 1));
            {(2, 0)} + a + b + c == KernelTables()
  {
    hide Pages, NeededOf, LeafTables;
    RamTables();
    TrampolineTables();
    var t := etext / 4096;
    PagesSplit(KERNBASE / 4096, t, PHYSTOP / 4096);
    NeededOfUnion(Pages(KERNBASE / 4096, t - KERNBASE / 4096), Pages(t, PHYSTOP / 4096 - t));
  }

  lemma PagesSplit(a: nat, b: nat, c: nat)
    requires a <= b <= c
    ensures Pages(a, c - a) == Pages(a, b - a) + Pages(b, c - b)
  {
    var x, y := Pages(a, c - a), Pages(a, b - a) + Pages(b, c - b);
    forall v | v in x ensures v in y {
      assert InRange(a, b - a, v) || InRange(b, c - b, v);
    }
    forall v | v in y ensures v in x {
      assert InRange(a, c - a, v);
    }
  }

  /** Where the three ranges lie. */
  lemma KernelKeys(etext: Word, trampoline: Word)
    requires etext % 4096 == 0 && KERNBASE < etext < PHYSTOP && trampoline / 4096 < MAXPAGES
    ensures forall v :: v in Identity(KERNBASE / 4096, etext / 4096, TEXT) <==> KERNBASE / 4096 <= v < etext / 4096
    ensures forall v :: v in Identity(etext / 4096, PHYSTOP / 4096, DATA) <==> etext / 4096 <= v < PHYSTOP / 4096
  {
    hide MakePte;
    forall v | KERNBASE / 4096 <= v < etext / 4096 ensures v in Identity(KERNBASE / 4096, etext / 4096, TEXT) {
      assert InRange(KERNBASE / 4096, etext / 4096 - KERNBASE / 4096, v);
    }
    forall v | etext / 4096 <= v < PHYSTOP / 4096 ensures v in Identity(etext / 4096, PHYSTOP / 4096, DATA) {
      assert InRange(etext / 4096, PHYSTOP / 4096 - etext / 4096, v);
    }
  }

  /** What the kernel map says about a page: nothing writable is executable, nothing is for user code, RAM is mapped
      to itself, and nothing is mapped outside RAM but the trampoline. */
  lemma KernelMapMeaning(etext: Word, trampoline: Word, v: nat)
    requires etext % 4096 == 0 && KERNBASE < etext < PHYSTOP && trampoline / 4096 < MAXPAGES
    ensures var m := KernelMappings(etext, trampoline);
            && (v in m <==> KERNBASE / 4096 <= v < PHYSTOP / 4096 || v == TRAMPOLINE / 4096)
            && (v in m ==>
                  && IsReadable(m[v]) && (IsWritable(m[v]) <==> !IsExecutable(m[v])) && !IsUser(m[v])
                  && Ppn(m[v]) == (if v == TRAMPOLINE / 4096 then trampoline / 4096 else v)
                  && (IsExecutable(m[v]) <==> v < etext / 4096 || v == TRAMPOLINE / 4096))
  {
    hide MakePte, IsReadable, IsWritable, IsExecutable, IsUser, Ppn;
    KernelKeys(etext, trampoline);
    TrampolineKey(trampoline);
    var m := KernelMappings(etext, trampoline);
    if v in m {
      var perm := if v < etext / 4096 || v == TRAMPOLINE / 4096 then TEXT else DATA;
      var q := if v == TRAMPOLINE / 4096 then trampoline / 4096 else v;
      assert m[v] == MakePte(q, perm);
      MakePteBits(q, perm);
      MakePteFields(q, perm);
      PermBits();
    }
  }

  lemma TrampolineKey(trampoline: Word)
    requires trampoline / 4096 < MAXPAGES
    ensures RangeMap(TRAMPOLINE / 4096, 1, trampoline / 4096,
            TEXT) == map[TRAMPOLINE / 4096 := MakePte(trampoline / 4096, TEXT)]
  {
    hide MakePte;
    PagesStep(TRAMPOLINE / 4096, 0);
    PagesEmpty(TRAMPOLINE / 4096);
  }

  lemma PermBits()
    ensures IsReadable(TEXT) && !IsWritable(TEXT) && IsExecutable(TEXT) && !IsUser(TEXT)
    ensures IsReadable(DATA) && IsWritable(DATA) && !IsExecutable(DATA) && !IsUser(DATA)
  {
  }
}
