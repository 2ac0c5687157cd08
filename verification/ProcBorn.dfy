/** proc_born in process_manager.c, on runs with enough free pages: the address space of a new process. */
module ProcBorn {
  import opened Riscv
  import opened Process
  import opened PageTable
  import opened Translation
  import opened Ownership
  import opened Building
  import opened Kalloc
  import opened Vm

  /** struct process, without what the assembly keeps in it. Page addresses are physical. */
  datatype Proc = Proc(pid: int, state: Status, trapframe: Word, ipcPage: Word, pagetable: Word, ipcData: Word,
      kstack: Word, sp: Word)

  /** What a birth was asked for and the pages it took. */
  datatype Birth = Birth(name: Word, io: bool, bytes: seq<Byte>, root: nat, trapframe: nat, ipcPage: nat,
      ipcData: nat, kstack: nat, frame: nat)

  const RX: Perm := 10      // PTE_R | PTE_X
  const RW: Perm := 6       // PTE_R | PTE_W
  const RWU: Perm := 22     // PTE_R | PTE_W | PTE_U
  const RWXU: Perm := 30    // PTE_U | PTE_X | PTE_R | PTE_W

  const V_TRAMPOLINE: nat := 0x3ff_ffff
  const V_TRAPFRAME: nat := 0x3ff_fffe
  const V_IPC: nat := 0x3ff_fffd
  const V_UART: nat := 0x3ff_fffc
  const P_UART: nat := 0x1_0000

  const EPC: nat := 3       // word of the trapframe that holds the user pc
  const USP: nat := 6       // word of the trapframe that holds the user stack pointer

  /** The whole address space of a process. */
  ghost function ImageMap(trampoline: nat, b: Birth): map<nat, Word>
    requires trampoline < MAXPAGES && b.trapframe < MAXPAGES && b.ipcPage < MAXPAGES && b.frame < MAXPAGES
  {
    var m := map[V_TRAMPOLINE := MakePte(trampoline, RX)][V_TRAPFRAME := MakePte(b.trapframe,
        RW)][V_IPC := MakePte(b.ipcPage, RWU)];
    (if b.io then m[V_UART := MakePte(P_UART, RWU)] else m)[0 := MakePte(b.frame, RWXU)]
  }

  predicate HeldBy(s: View, p: nat, owner: nat) {
    p in s.role && s.role[p] == Held(owner)
  }

  /** The label of the `kind`-th page of the process in slot i. */
  function Owner(i: nat, kind: nat): nat {
    4 * i + kind + 1
  }

  /** A loaded image: the binary, then zeros. */
  ghost predicate HoldsBinary(page: seq<Word>, bytes: seq<Byte>)
    requires |page| == SLOTS
  {
    forall x: nat :: x < PGSIZE ==> PageByte(page, x) == if x < |bytes| then bytes[x] else 0
  }

  /** An ipc block as proc_born leaves it: the name, an empty queue, and the wait flag still the allocator's junk. */
  ghost predicate FreshIpc(page: seq<Word>, name: Word, n: nat)
    requires |page| == SLOTS && n + 2 <= SLOTS
  {
    && page[0] == name
    && (forall j :: 1 <= j <= n ==> page[j] == 0)
    && page[n + 1] == JUNK_ALLOCATED
  }

  /** The process in slot i is as it was born. */
  ghost predicate Image(s: View, pr: Proc, b: Birth, i: nat, trampoline: nat, n: nat)
    requires Shape(s) && trampoline < MAXPAGES && n + 2 <= SLOTS
  {
    && pr.pid == i + 1 && pr.state == Runnable
    && pr.pagetable == b.root * 4096 && pr.trapframe == b.trapframe * 4096 && pr.ipcPage == b.ipcPage * 4096
    && pr.ipcData == b.ipcData * 4096 && pr.kstack == b.kstack * 4096 && pr.sp == b.kstack * 4096 + PGSIZE
    && HeldBy(s, b.trapframe, Owner(i, 0)) && HeldBy(s, b.ipcPage, Owner(i, 1))
    && HeldBy(s, b.ipcData, Owner(i, 2)) && HeldBy(s, b.kstack, Owner(i, 3))
    && FrameFor(s, b.frame, b.root, 0)
    && IsRoot(s, b.root) && AbsMap(s.mem, b.root) == ImageMap(trampoline, b)
    && HoldsBinary(s.mem[b.frame], b.bytes)
    && s.mem[b.trapframe][EPC] == 0 && s.mem[b.trapframe][USP] == PGSIZE
    && FreshIpc(s.mem[b.ipcData], b.name, n)
  }

  /** Used slots are a prefix, each as born; the rest are unused, all zero as the table starts out. */
  ghost predicate Live(s: View, procs: seq<Proc>, births: seq<Birth>, trampoline: nat)
    requires Shape(s) && trampoline < MAXPAGES && |procs| + 2 <= SLOTS
  {
    && |births| <= |procs|
    && (forall i: nat {:trigger births[i]} :: i < |births| ==> Image(s, procs[i], births[i], i, trampoline, |procs|))
    && (forall i :: |births| <= i < |procs| ==> procs[i].state == Unused && procs[i].pid == 0 && procs[i].ipcData == 0)
  }

  // ---------------------------------------------------------------- what a birth leaves alone

  /** A birth keeps every earlier process as it was. */
  lemma ImageKept(s: View, s': View, pr: Proc, b: Birth, i: nat, trampoline: nat, n: nat)
    requires Inv(s) && Shape(s') && LiveKept(s, s') && trampoline < MAXPAGES && n + 2 <= SLOTS
    requires Image(s, pr, b, i, trampoline, n)
    ensures Image(s', pr, b, i, trampoline, n)
  {
    hide AbsMap, ImageMap, HoldsBinary, FreeListOk, EdgesOk, LeavesOk, FramesOk, NodesOk;
    SameLookup(s, s'.mem, b.root);
  }

  // ---------------------------------------------------------------- proc_born

  lemma UserPerms()
    ensures !IsUser(RX) && !IsUser(RW) && IsUser(RWU) && IsUser(RWXU)
    ensures IsLeaf(RX) && IsLeaf(RW) && IsLeaf(RWU) && IsLeaf(RWXU)
    ensures IsReadable(RX) && IsReadable(RW) && IsReadable(RWU) && IsReadable(RWXU)
    ensures !IsWritable(RX) && IsWritable(RW) && IsWritable(RWU) && IsWritable(RWXU)
    ensures IsExecutable(RX) && !IsExecutable(RW) && !IsExecutable(RWU) && IsExecutable(RWXU)
  {
  }

  /** One of the mappages calls of proc_born: it takes the tables that are missing and cannot fail while pages are left
      for them. */
  method MapOne(k: Machine, pagetable: Word, va: Word, pa: Word, perm: Perm, ghost v: nat, ghost q: nat, ghost s0: View,
      ghost held: map<nat, Hold>, ghost used: nat, ghost root: nat, ghost m: map<nat, Word>,
      ghost places: set<(nat, nat)>)
    requires Inv(s0) && k.Valid() && Under(s0, k.view, held, used) && TreeOk(s0, k.view, root, m, places)
             && pagetable == root * 4096
    requires va == v * 4096 && va < MAXVA && pa == q * 4096 && q < MAXPAGES && IsLeaf(perm) && v !in m
    requires PlaceCost(places, v) <= |k.view.free|
    modifies k`view, k`freelist, k.ram
    ensures k.Valid() && Under(s0, k.view, held, used + PlaceCost(places, v))
    ensures TreeOk(s0, k.view, root, m[v := MakePte(q, perm)], places + Needed(v))
  {
    hide AbsMap, Positions, Needed, NeededOf, Inv, Machine.Valid, IsLeaf, MakePte, Grown, Pages, RangeMap, LiveKept,
        HoldsOk, TableCost, PlaceCost;
    ghost var s := k.view;
    assert va / 4096 == v && va % 4096 == 0 && pa / 4096 == q;
    OneMapped(m, v, q, perm);
    OnePageCost(s, root, v);
    var r := MapPages(k, pagetable, va, PGSIZE, pa, perm, root);
    assert r == 0;
    UnderMap(s0, s, held, used, root, m, places, k.view, v, MakePte(q, perm));
  }

  /** The index of the first unused slot. */
  method FreeSlot(proc: array<Proc>) returns (i: nat)
    requires exists j :: 0 <= j < proc.Length && proc[j].state == Unused
    ensures i < proc.Length && proc[i].state == Unused && forall j :: 0 <= j < i ==> proc[j].state != Unused
  {
    i := 0;
    while proc[i].state != Unused
      invariant i < proc.Length && forall j :: 0 <= j < i ==> proc[j].state != Unused
      invariant exists j :: i <= j < proc.Length && proc[j].state == Unused
      decreases proc.Length - i
    {
      i := i + 1;
    }
  }

  /** The next page of the list, for a stated purpose. */
  method TakePage(k: Machine, ghost owner: nat, ghost s0: View, ghost held: map<nat, Hold>,
      ghost used: nat) returns (pa: Word, ghost q: nat)
    requires k.Valid() && Under(s0, k.view, held, used) && |k.view.free| > 0
    modifies k`view, k`freelist, k.ram
    ensures k.Valid() && pa == q * 4096 && 0 < q < |k.view.mem| <= MAXPAGES && q !in held
    ensures Under(s0, k.view, held[q := Hold(owner, Filled(JUNK_ALLOCATED))], used + 1)
    ensures forall root, m, places :: TreeOk(s0, old(k.view), root, m, places) ==> TreeOk(s0, k.view, root, m, places)
  {
    hide Positions, AbsMap, FreeListOk, NodesOk, EdgesOk, LeavesOk, FramesOk, TreeOk, LiveKept, HoldsOk,
        Machine.Valid, Pop;
    ghost var s := k.view;
    UnderKalloc(s0, s, held, used, owner);
    q := s.free[0];
    PopMem(s);
    pa := k.Kalloc();
    k.Relabel(q, Held(owner));
    forall root, m, places | TreeOk(s0, s, root, m, places) ensures TreeOk(s0, k.view, root, m, places) {
      TreeKalloc(s0, s, root, m, places, owner);
    }
  }

  const TOP_PLACES: set<(nat, nat)> := {(2, 0), (1, 255), (0, 131071)}
  const ALL_PLACES: set<(nat, nat)> := {(2, 0), (1, 255), (0, 131071), (1, 0), (0, 0)}

  /** The fixed pages share one pair of tables; page 0 needs another pair. */
  lemma BornPlaces()
    ensures PlaceCost({(2, 0)}, V_TRAMPOLINE) == 2 && {(2, 0)} + Needed(V_TRAMPOLINE) == TOP_PLACES
    ensures forall v :: v in {V_TRAPFRAME, V_IPC, V_UART} ==>
              PlaceCost(TOP_PLACES, v) == 0 && TOP_PLACES + Needed(v) == TOP_PLACES
    ensures PlaceCost(TOP_PLACES, 0) == 2 && TOP_PLACES + Needed(0) == ALL_PLACES
  {
    BornNeeds();
    hide Needed;
    PairCost({(2, 0)}, V_TRAMPOLINE, (1, 255), (0, 131071));
    PairCost(TOP_PLACES, 0, (1, 0), (0, 0));
    forall v | v in {V_TRAPFRAME, V_IPC, V_UART} ensures PlaceCost(TOP_PLACES, v) == 0
        && TOP_PLACES + Needed(v) == TOP_PLACES {
      NoCost(TOP_PLACES, v);
    }
  }

  lemma BornNeeds()
    ensures Needed(V_TRAMPOLINE) == Needed(V_TRAPFRAME) == Needed(V_IPC) == Needed(V_UART) == {(1, 255), (0, 131071)}
    ensures Needed(0) == {(1, 0), (0, 0)}
  {
  }

  lemma PairCost(places: set<(nat, nat)>, v: nat, a: (nat, nat), b: (nat, nat))
    requires Needed(v) == {a, b} && a != b && a !in places && b !in places
    ensures PlaceCost(places, v) == 2 && places + Needed(v) == places + {a, b}
  {
    hide Needed;
    assert {a, b} - places == {a, b};
  }

  lemma NoCost(places: set<(nat, nat)>, v: nat)
    requires Needed(v) <= places
    ensures PlaceCost(places, v) == 0 && places + Needed(v) == places
  {
    hide Needed;
    assert Needed(v) - places == {};
  }

  /** The fixed part of the address space: trampoline, trapframe, ipc page and, for an io server, the UART. */
  ghost function TopMap(trampoline: nat, tf: nat, ip: nat, io: bool): map<nat, Word>
    requires trampoline < MAXPAGES && tf < MAXPAGES && ip < MAXPAGES
  {
    var m := map[V_TRAMPOLINE := MakePte(trampoline, RX)][V_TRAPFRAME := MakePte(tf, RW)][V_IPC := MakePte(ip, RWU)];
    if io then m[V_UART := MakePte(P_UART, RWU)] else m
  }

  /** The first half of proc_born: trapframe, ipc page and a tree with the fixed mappings. */
  method BornSpace(k: Machine, trampoline: Word, io: bool, ghost i: nat)
    returns (pagetable: Word, trapframe: Word, ipcPage: Word, ghost root: nat, ghost tf: nat, ghost ip: nat,
        ghost held: map<nat, Hold>)
    requires Ok(k) && |k.view.free| >= 10 && trampoline % 4096 == 0 && trampoline / 4096 < MAXPAGES
    modifies k`view, k`freelist, k.ram
    ensures pagetable == root * 4096 && trapframe == tf * 4096 && ipcPage == ip * 4096 && tf != ip
            && tf < MAXPAGES && ip < MAXPAGES
    ensures held == map[tf := Hold(Owner(i, 0), Filled(JUNK_ALLOCATED))][ip := Hold(Owner(i, 1),
            Filled(JUNK_ALLOCATED))]
    ensures k.Valid() && Under(old(k.view), k.view, held, 5)
    ensures TreeOk(old(k.view), k.view, root, TopMap(trampoline / 4096, tf, ip, io), TOP_PLACES)
  {
    hide AbsMap, Positions, Needed, Inv, Machine.Valid, IsLeaf, MakePte, Grown, LiveKept, HoldsOk, PlaceCost, TreeOk,
        IsRoot, Owner;
    ghost var s0 := k.view;
    BornPlaces();
    UserPerms();
    UnderStart(s0);
    held := map[];
    trapframe, tf := TakePage(k, Owner(i, 0), s0, held, 0);
    held := held[tf := Hold(Owner(i, 0), Filled(JUNK_ALLOCATED))];
    ipcPage, ip := TakePage(k, Owner(i, 1), s0, held, 1);
    held := held[ip := Hold(Owner(i, 1), Filled(JUNK_ALLOCATED))];
    ghost var s := k.view;
    pagetable, root := UvmCreate(k);
    UnderCreate(s0, s, held, 2, k.view, root);
    TreeStart(s0, k.view, root);
    ghost var m := map[];
    MapOne(k, pagetable, TRAMPOLINE, trampoline, RX, V_TRAMPOLINE, trampoline / 4096, s0, held, 3, root, m, {(2, 0)});
    m := m[V_TRAMPOLINE := MakePte(trampoline / 4096, RX)];
    MapOne(k, pagetable, TRAPFRAME, trapframe, RW, V_TRAPFRAME, tf, s0, held, 5, root, m, TOP_PLACES);
    m := m[V_TRAPFRAME := MakePte(tf, RW)];
    MapOne(k, pagetable, IPC, ipcPage, RWU, V_IPC, ip, s0, held, 5, root, m, TOP_PLACES);
    m := m[V_IPC := MakePte(ip, RWU)];
    if io {
      MapOne(k, pagetable, VUART, UART0, RWU, V_UART, P_UART, s0, held, 5, root, m, TOP_PLACES);
    }
  }

  lemma UnderStart(s: View)
    requires Inv(s)
    ensures Under(s, s, map[], 0)
  {
    hide InvExcept;
  }

  lemma TreeStart(s0: View, s: View, root: nat)
    requires IsRoot(s, root) && root in s0.role && s0.role[root] == Free && AbsMap(s.mem, root) == map[]
             && Positions(s, root) == {(2, 0)}
    ensures TreeOk(s0, s, root, map[], {(2, 0)})
  {
    hide AbsMap, Positions;
  }

  /** A store into a page taken earlier. */
  method PutWord(k: Machine, a: Word, w: Word, ghost p: nat, ghost i: nat, ghost s0: View, ghost held: map<nat, Hold>,
      ghost used: nat, ghost root: nat, ghost m: map<nat, Word>, ghost places: set<(nat, nat)>)
    requires k.Valid() && Under(s0, k.view, held, used) && TreeOk(s0, k.view, root, m, places)
    requires p in held && |held[p].page| == SLOTS && i < SLOTS && a == p * 4096 + i * 8
    modifies k`view, k`freelist, k.ram
    ensures k.Valid() && Under(s0, k.view, held[p := Hold(held[p].owner, held[p].page[i := w])], used)
            && TreeOk(s0, k.view, root, m, places)
  {
    hide AbsMap, Positions, NodesOk, EdgesOk, LeavesOk, FramesOk, FreeListOk, Machine.Valid, TreeOk, LiveKept;
    ghost var s := k.view;
    assert p < |s.mem| && s.mem[p] == held[p].page;
    k.Store(a, w, p, i);
    UnderWrite(s0, s, held, used, p, s.mem[p][i := w]);
    TreeWrite(s0, s, root, m, places, p, s.mem[p][i := w]);
  }

  /** What the trapframe and the ipc block hold in the end. */
  function BornTrapframe(): seq<Word> {
    Filled(JUNK_ALLOCATED)[EPC := 0][USP := PGSIZE]
  }

  function BornIpc(name: Word, n: nat): (page: seq<Word>)
    requires n + 2 <= SLOTS
    ensures |page| == SLOTS && FreshIpc(page, name, n)
  {
    ZeroWords(Filled(JUNK_ALLOCATED), 1, n)[0 := name]
  }

  /** The second half of proc_born up to the binary: user registers, ipc block, kernel stack. */
  method BornBlocks(k: Machine, trapframe: Word, name: Word, n: nat, ghost i: nat, ghost s0: View,
      ghost held0: map<nat, Hold>, ghost tf: nat, ghost root: nat, ghost m: map<nat, Word>)
    returns (ipcData: Word, kstack: Word, ghost id: nat, ghost ks: nat, ghost held: map<nat, Hold>)
    requires k.Valid() && Under(s0, k.view, held0, 5) && TreeOk(s0, k.view, root, m, TOP_PLACES)
             && |s0.free| >= 10 && n + 2 <= SLOTS
    requires tf in held0 && held0[tf] == Hold(Owner(i, 0), Filled(JUNK_ALLOCATED)) && trapframe == tf * 4096
    modifies k`view, k`freelist, k.ram
    ensures ipcData == id * 4096 && kstack == ks * 4096 && ks < MAXPAGES && id !in held0 && ks !in held0 && ks != id
    ensures held ==
            held0[id := Hold(Owner(i, 2), BornIpc(name, n))][ks := Hold(Owner(i, 3), Filled(JUNK_ALLOCATED))]
                 [tf := Hold(Owner(i, 0), BornTrapframe())]
    ensures k.Valid() && Under(s0, k.view, held, 7) && TreeOk(s0, k.view, root, m, TOP_PLACES)
  {
    hide AbsMap, Positions, NodesOk, EdgesOk, LeavesOk, FramesOk, FreeListOk, Machine.Valid, TreeOk, LiveKept, Inv,
        HoldsOk, Owner, ZeroWords, BornIpc, BornTrapframe;
    held := held0;
    PutWord(k, trapframe + EPC * 8, 0, tf, EPC, s0, held, 5, root, m, TOP_PLACES);
    held := held[tf := Hold(Owner(i, 0), Filled(JUNK_ALLOCATED)[EPC := 0])];
    ipcData, id := TakePage(k, Owner(i, 2), s0, held, 5);
    held := held[id := Hold(Owner(i, 2), Filled(JUNK_ALLOCATED))];
    ghost var s := k.view;
    HeldPage(s0, s, held, 6, id);
    k.MemsetZero(ipcData + 8, n, id, 1);
    UnderWrite(s0, s, held, 6, id, ZeroWords(Filled(JUNK_ALLOCATED), 1, n));
    TreeWrite(s0, s, root, m, TOP_PLACES, id, ZeroWords(Filled(JUNK_ALLOCATED), 1, n));
    held := held[id := Hold(Owner(i, 2), ZeroWords(Filled(JUNK_ALLOCATED), 1, n))];
    PutWord(k, ipcData, name, id, 0, s0, held, 6, root, m, TOP_PLACES);
    BornPagesAre(name, n);
    held := held[id := Hold(Owner(i, 2), BornIpc(name, n))];
    kstack, ks := TakePage(k, Owner(i, 3), s0, held, 6);
    held := held[ks := Hold(Owner(i, 3), Filled(JUNK_ALLOCATED))];
    PutWord(k, trapframe + USP * 8, PGSIZE, tf, USP, s0, held, 7, root, m, TOP_PLACES);
    held := held[tf := Hold(Owner(i, 0), BornTrapframe())];
  }

  lemma HeldPage(s0: View, s: View, held: map<nat, Hold>, used: nat, p: nat)
    requires Under(s0, s, held, used) && p in held
    ensures p < |s.mem| && s.mem[p] == held[p].page && p in s.role && s.role[p].Held?
  {
    hide InvExcept, LiveKept;
  }

  lemma BornPagesAre(name: Word, n: nat)
    requires n + 2 <= SLOTS
    ensures BornIpc(name, n) == ZeroWords(Filled(JUNK_ALLOCATED), 1, n)[0 := name]
    ensures BornTrapframe() == Filled(JUNK_ALLOCATED)[EPC := 0][USP := PGSIZE]
  {
  }

  /** The bytes of the binary, which lies below the managed pages. */
  ghost function BinaryAt(mem: Memory, bin: nat, size: nat): (bytes: seq<Byte>)
    requires bin + size <= |mem| * 4096 && forall p :: 0 <= p < |mem| ==> |mem[p]| == SLOTS
    ensures |bytes| == size && forall x: nat :: x < size ==> bytes[x] == ByteAt(mem, bin + x)
  {
    seq<Byte>(size, x requires 0 <= x < size => ByteAt(mem, bin + x))
  }

  /** Zeroes the page and copies the binary to its start. */
  method LoadBinary(k: Machine, memphys: Word, bin: nat, size: nat, ghost q: nat, ghost s0: View,
      ghost held0: map<nat, Hold>, ghost root: nat, ghost m: map<nat, Word>)
    returns (ghost page: seq<Word>, ghost held: map<nat, Hold>)
    requires k.Valid() && Shape(s0) && Under(s0, k.view, held0, 8) && TreeOk(s0, k.view, root, m, TOP_PLACES)
    requires q in held0 && |held0[q].page| == SLOTS && memphys == q * 4096 && size <= PGSIZE
             && bin + size <= k.end && bin + size <= |s0.mem| * 4096
    modifies k`view, k`freelist, k.ram
    ensures |page| == SLOTS && HoldsBinary(page, BinaryAt(s0.mem, bin, size))
            && held == held0[q := Hold(held0[q].owner, page)]
    ensures k.Valid() && Under(s0, k.view, held, 8) && TreeOk(s0, k.view, root, m, TOP_PLACES)
  {
    hide AbsMap, Positions, NodesOk, EdgesOk, LeavesOk, FramesOk, FreeListOk, TreeOk, LiveKept, Repeated, PageByte,
        HoldsOk, Le;
    ghost var s := k.view;
    HeldPage(s0, s, held0, 8, q);
    LiveIsUnmanaged(s0, s);
    BinaryKept(s0, s, bin, size, k.end);
    RepeatedJunk();
    k.MemsetPage(memphys, 0, q);
    ghost var s1 := k.view;
    UnderWrite(s0, s, held0, 8, q, Filled(0));
    TreeWrite(s0, s, root, m, TOP_PLACES, q, Filled(0));
    held := held0[q := Hold(held0[q].owner, Filled(0))];
    LiveIsUnmanaged(s0, s1);
    BinaryKept(s0, s1, bin, size, k.end);
    k.CopyInto(memphys, bin, size, true, q, 0);
    page := k.view.mem[q];
    ZeroBytes();
    assert forall x: nat :: x < size ==> PageByte(page, x) == ByteAt(s1.mem, bin + (x - 0));
    assert HoldsBinary(page, BinaryAt(s1.mem, bin, size));
    UnderWrite(s0, s1, held, 8, q, page);
    HeldPage(s0, s1, held, 8, q);
    TreeWrite(s0, s1, root, m, TOP_PLACES, q, page);
    held := held[q := Hold(held0[q].owner, page)];
  }

  /** A zeroed page reads as zeros. */
  lemma ZeroBytes()
    ensures forall b: nat :: b < PGSIZE ==> PageByte(Filled(0), b) == 0
  {
    forall b: nat | b < PGSIZE ensures PageByte(Filled(0), b) == 0 {
      ZeroByte(b % 8);
    }
  }

  lemma {:induction false} ZeroByte(k: nat)
    ensures ByteOf(0, k) == 0
  {
    if k > 0 { ZeroByte(k - 1); }
  }

  /** Memory below `end` is not managed, so the binary stays what it was. */
  lemma BinaryKept(s0: View, s: View, bin: nat, size: nat, end: nat)
    requires Shape(s0) && Shape(s) && UnmanagedKept(s0, s) && bin + size <= end && bin + size <= |s0.mem| * 4096
    requires forall p: nat :: p in s.role ==> end <= p * 4096
    ensures BinaryAt(s.mem, bin, size) == BinaryAt(s0.mem, bin, size)
  {
    hide PageByte;
    forall x: nat | x < size ensures BinaryAt(s.mem, bin, size)[x] == BinaryAt(s0.mem, bin, size)[x] {
      var a := bin + x;
      var p := a / 4096;
      assert p * 4096 <= a < end;
      assert p !in s.role && p !in s0.role;
      assert s.mem[p] == s0.mem[p];
      assert ByteAt(s.mem, a) == ByteAt(s0.mem, a);
      assert BinaryAt(s.mem, bin, size)[x] == ByteAt(s.mem, a) && BinaryAt(s0.mem, bin, size)[x] == ByteAt(s0.mem, a);
    }
  }

  lemma FirstUnused(s: View, procs: seq<Proc>, births: seq<Birth>, trampoline: nat, i: nat)
    requires Shape(s) && trampoline < MAXPAGES && |procs| + 2 <= SLOTS && Live(s, procs, births, trampoline)
             && |births| < |procs|
    requires i < |procs| && procs[i].state == Unused && forall j :: 0 <= j < i ==> procs[j].state != Unused
    ensures i == |births|
  {
    hide AbsMap, ImageMap, HoldsBinary, FreshIpc;
    assert procs[|births|].state == Unused;
    forall j: nat | j < |births| ensures procs[j].state == Runnable {
      assert Image(s, procs[j], births[j], j, trampoline, |procs|);
    }
  }

  lemma PageZeroFree(trampoline: nat, tf: nat, ip: nat, io: bool)
    requires trampoline < MAXPAGES && tf < MAXPAGES && ip < MAXPAGES
    ensures 0 !in TopMap(trampoline, tf, ip, io)
  {
    hide MakePte;
  }

  lemma InvShape(s: View)
    requires Inv(s)
    ensures Shape(s)
  {
  }

  lemma UnderEnd(s0: View, s: View, held: map<nat, Hold>, used: nat)
    requires Under(s0, s, held, used)
    ensures Inv(s) && LiveKept(s0, s) && HoldsOk(s0, s, held) && |s.free| == |s0.free| - used
  {
    hide InvExcept, LiveKept, HoldsOk;
  }

  lemma NewImage(s0: View, s: View, pr: Proc, b: Birth, i: nat, trampoline: nat, n: nat, held: map<nat, Hold>,
      page: seq<Word>)
    requires Shape(s) && HoldsOk(s0, s, held) && trampoline < MAXPAGES && n + 2 <= SLOTS && b.frame < |s.mem|
    requires pr.pid == i + 1 && pr.state == Runnable && pr.trapframe == b.trapframe * 4096
             && pr.ipcPage == b.ipcPage * 4096
    requires pr.pagetable == b.root * 4096 && pr.ipcData == b.ipcData * 4096 && pr.kstack == b.kstack * 4096
             && pr.sp == b.kstack * 4096 + PGSIZE
    requires b.trapframe in held && held[b.trapframe] == Hold(Owner(i, 0), BornTrapframe())
    requires b.ipcPage in held && held[b.ipcPage].owner == Owner(i, 1)
    requires b.ipcData in held && held[b.ipcData] == Hold(Owner(i, 2), BornIpc(b.name, n))
    requires b.kstack in held && held[b.kstack].owner == Owner(i, 3)
    requires TreeOk(s0, s, b.root, TopMap(trampoline, b.trapframe, b.ipcPage, b.io)[0 := MakePte(b.frame, RWXU)],
             ALL_PLACES)
    requires FrameFor(s, b.frame, b.root, 0) && s.mem[b.frame] == page && |page| == SLOTS && HoldsBinary(page, b.bytes)
    ensures Image(s, pr, b, i, trampoline, n)
  {
    hide AbsMap, Positions, HoldsBinary, MakePte, BornIpc, FreshIpc, FrameFor;
    assert BornTrapframe()[EPC] == 0 && BornTrapframe()[USP] == PGSIZE;
  }

  lemma StillLive(s0: View, s: View, procs: seq<Proc>, procs': seq<Proc>, births: seq<Birth>, b: Birth, trampoline: nat)
    requires Inv(s0) && Shape(s) && LiveKept(s0, s) && trampoline < MAXPAGES && |procs| == |procs'|
             && |procs| + 2 <= SLOTS
    requires Live(s0, procs, births, trampoline) && |births| < |procs| && procs' == procs[|births| := procs'[|births|]]
    requires Image(s, procs'[|births|], b, |births|, trampoline, |procs|)
    ensures Live(s, procs', births + [b], trampoline)
  {
    hide Image, LiveKept, InvExcept;
    var births' := births + [b];
    forall i: nat | i < |births'| ensures Image(s, procs'[i], births'[i], i, trampoline, |procs'|) {
      if i < |births| {
        assert births'[i] == births[i] && procs'[i] == procs[i];
        ImageKept(s0, s, procs[i], births[i], i, trampoline, |procs|);
      }
    }
  }

  /** The memory side of proc_born, and the fields it leaves in slot i. */
  method BornInSlot(k: Machine, trampoline: Word, bin: nat, size: nat, name: Word, io: bool, i: nat,
      n: nat) returns (pr: Proc, ghost b: Birth)
    requires Ok(k) && Shape(k.view) && trampoline % 4096 == 0 && trampoline / 4096 < MAXPAGES && n + 2 <= SLOTS
             && |k.view.free| >= 10
    requires size <= PGSIZE && bin + size <= k.end && bin + size <= |k.view.mem| * 4096
    modifies k`view, k`freelist, k.ram
    ensures Ok(k) && Shape(k.view) && LiveKept(old(k.view), k.view)
    ensures Image(k.view, pr, b, i, trampoline / 4096, n)
    ensures b.name == name && b.io == io && b.bytes == BinaryAt(old(k.view.mem), bin, size)
    ensures |k.view.free| == |old(k.view.free)| - 10
  {
    hide AbsMap, Positions, NodesOk, EdgesOk, LeavesOk, FramesOk, FreeListOk, Machine.Valid, TreeOk, LiveKept, Inv,
        HoldsOk, Owner, BornIpc, BornTrapframe,
         ImageMap, TopMap, Image, Needed, PlaceCost, Repeated, MakePte, Ppn, IsLeaf, PageByte, ByteAt, Px, FrameFor,
             BinaryAt, HoldsBinary;
    ghost var s0 := k.view;
    var pagetable, trapframe, ipcPage;
    ghost var root, tf, ip, held;
    pagetable, trapframe, ipcPage, root, tf, ip, held := BornSpace(k, trampoline, io, i);
    ghost var m := TopMap(trampoline / 4096, tf, ip, io);
    var ipcData, kstack;
    ghost var id, ks;
    ipcData, kstack, id, ks, held := BornBlocks(k, trapframe, name, n, i, s0, held, tf, root, m);
    var memphys;
    ghost var q, page;
    memphys, q := TakePage(k, 0, s0, held, 7);
    held := held[q := Hold(0, Filled(JUNK_ALLOCATED))];
    page, held := LoadBinary(k, memphys, bin, size, q, s0, held, root, m);
    BornPlaces();
    UserPerms();
    PageZeroFree(trampoline / 4096, tf, ip, io);
    MapOne(k, pagetable, 0, memphys, RWXU, 0, q, s0, held, 8, root, m, TOP_PLACES);
    m := m[0 := MakePte(q, RWXU)];
    MakePteFields(q, RWXU);
    HeldPage(s0, k.view, held, 10, q);
    ghost var t := UnderAdopt(s0, k.view, held, 10, root, m, ALL_PLACES, 0, q);
    k.Relabel(q, Frame(root, 0, t, Px(0, 0)));
    pr := Proc(i + 1, Runnable, trapframe, ipcPage, pagetable, ipcData, kstack, kstack + PGSIZE);
    b := Birth(name, io, BinaryAt(s0.mem, bin, size), root, tf, ip, id, ks, q);
    UnderEnd(s0, k.view, held - {q}, 10);
    InvShape(k.view);
    NewImage(s0, k.view, pr, b, i, trampoline / 4096, n, held - {q}, page);
  }

  /** proc_born: a process in the first unused slot, from exactly ten free pages, with everything live left alone. */
  method Born(k: Machine, proc: array<Proc>, trampoline: Word, bin: nat, size: nat, name: Word, io: bool,
      ghost births: seq<Birth>)
    returns (ghost b: Birth)
    requires Ok(k) && Shape(k.view) && trampoline % 4096 == 0 && trampoline / 4096 < MAXPAGES
             && proc.Length + 2 <= SLOTS
    requires Live(k.view, proc[..], births, trampoline / 4096) && |births| < proc.Length && |k.view.free| >= 10
    requires size <= PGSIZE && bin + size <= k.end && bin + size <= |k.view.mem| * 4096
    modifies k`view, k`freelist, k.ram, proc
    ensures Ok(k) && Shape(k.view) && LiveKept(old(k.view), k.view)
    ensures Live(k.view, proc[..], births + [b], trampoline / 4096)
    ensures b.name == name && b.io == io && b.bytes == BinaryAt(old(k.view.mem), bin, size)
    ensures |k.view.free| == |old(k.view.free)| - 10
  {
    hide LiveKept, Inv, Image, Machine.Valid, BinaryAt;
    ghost var s0, procs := k.view, proc[..];
    assert procs[|births|].state == Unused;
    var i := FreeSlot(proc);
    FirstUnused(s0, procs, births, trampoline / 4096, i);
    proc[i] := proc[i].(state := Running);   // so that a timer tick does not pick the half-made process
    var pr;
    pr, b := BornInSlot(k, trampoline, bin, size, name, io, i, proc.Length);
    proc[i] := pr;
    assert proc[..] == procs[i := pr];
    StillLive(s0, k.view, procs, proc[..], births, b, trampoline / 4096);
  }
}
