/** What user code can reach: its own pages only, from birth on and whatever is stored where it may be stored. */
module Isolation {
  import opened Riscv
  import opened PageTable
  import opened Translation
  import opened Ownership
  import opened Building
  import opened ProcBorn
  import opened Kalloc
  import opened IpcBuffers
  import opened Sv39

  /** The process in slot i has its pages and its address space; nothing is said about what its pages hold. */
  ghost predicate Space(s: View, b: Birth, i: nat, trampoline: nat)
    requires Shape(s) && trampoline < MAXPAGES
  {
    && HeldBy(s, b.trapframe, Owner(i, 0)) && HeldBy(s, b.ipcPage, Owner(i, 1))
    && HeldBy(s, b.ipcData, Owner(i, 2)) && HeldBy(s, b.kstack, Owner(i, 3))
    && FrameFor(s, b.frame, b.root, 0)
    && IsRoot(s, b.root) && AbsMap(s.mem, b.root) == ImageMap(trampoline, b)
  }

  ghost predicate Spaces(s: View, births: seq<Birth>, trampoline: nat)
    requires Shape(s) && trampoline < MAXPAGES
  {
    forall i: nat {:trigger births[i]} :: i < |births| ==> Space(s, births[i], i, trampoline)
  }

  /** Processes are born this way. */
  lemma BornSpaces(s: View, procs: seq<Proc>, births: seq<Birth>, trampoline: nat)
    requires Shape(s) && trampoline < MAXPAGES && |procs| + 2 <= SLOTS && Live(s, procs, births, trampoline)
    ensures Spaces(s, births, trampoline)
  {
    hide AbsMap, ImageMap, HoldsBinary, FreshIpc;
    forall i: nat | i < |births| ensures Space(s, births[i], i, trampoline) {
      assert Image(s, procs[i], births[i], i, trampoline, |procs|);
    }
  }

  // ---------------------------------------------------------------- who reaches what

  /** What an address space is: which pages are there, what they show, and who may do what with them. Only the ipc
      page, page 0 and an io server's UART are for user code; everything can be read, all but the trampoline written,
      and only the trampoline and page 0, with the program, executed. */
  lemma SpacePages(s: View, b: Birth, i: nat, trampoline: nat, v: nat)
    requires Inv(s) && trampoline < MAXPAGES && Space(s, b, i, trampoline)
    ensures v in AbsMap(s.mem, b.root) <==>
            v == V_TRAMPOLINE || v == V_TRAPFRAME || v == V_IPC || v == 0 || (v == V_UART && b.io)
    ensures v in AbsMap(s.mem, b.root) ==>
              var w := AbsMap(s.mem, b.root)[v];
              && Ppn(w) == (if v == V_TRAMPOLINE then trampoline else if v == V_TRAPFRAME then b.trapframe
                            else if v == V_IPC then b.ipcPage else if v == 0 then b.frame else P_UART)
              && IsValid(w) && IsReadable(w)
              && (IsWritable(w) <==> v != V_TRAMPOLINE)
              && (IsExecutable(w) <==> v == V_TRAMPOLINE || v == 0)
              && (IsUser(w) <==> v == V_IPC || v == V_UART || v == 0)
  {
    hide AbsMap, Ppn, IsUser, MakePte, IsReadable, IsWritable, IsExecutable, IsValid, PteFlags, IsLeaf,
         FreeListOk, EdgesOk, LeavesOk, FramesOk, NodesOk;
    UserPerms();
    MakePteFields(trampoline, RX);
    MakePteFields(b.trapframe, RW);
    MakePteFields(b.ipcPage, RWU);
    MakePteFields(P_UART, RWU);
    MakePteFields(b.frame, RWXU);
    MakePteBits(trampoline, RX);
    MakePteBits(b.trapframe, RW);
    MakePteBits(b.ipcPage, RWU);
    MakePteBits(P_UART, RWU);
    MakePteBits(b.frame, RWXU);
  }

  lemma NotReserved(ppn: nat, perm: Perm)
    requires ppn < MAXPAGES && IsReadable(perm)
    ensures !Reserved(MakePte(ppn, perm)) && Ppn(MakePte(ppn, perm)) == ppn && IsReadable(MakePte(ppn, perm))
    ensures IsUser(MakePte(ppn, perm)) == IsUser(perm) && IsWritable(MakePte(ppn, perm)) == IsWritable(perm)
    ensures IsExecutable(MakePte(ppn, perm)) == IsExecutable(perm)
  {
    MakePteFields(ppn, perm);
    MakePteBits(ppn, perm);
  }

  /** The hardware lets user code execute the byte at virtual address va, and it is this one. */
  ghost predicate Executes(s: View, root: nat, va: nat, byte: Byte)
    requires Shape(s)
  {
    var t := Translate(s.mem, root, va / 4096, 2);
    && t.Page? && IsUser(t.pte) && IsExecutable(t.pte)
    && t.ppn < |s.mem| && PageByte(s.mem[t.ppn], va % 4096) == byte
  }

  /** The hardware lets user code write the byte at virtual address va. */
  ghost predicate Stores(s: View, root: nat, va: nat) {
    var t := Translate(s.mem, root, va / 4096, 2);
    t.Page? && IsUser(t.pte) && IsWritable(t.pte)
  }

  /** A new process can run: from its first instruction on, the hardware finds its binary, then zeros, and may execute
      it as user code; the stack below the user stack pointer is in the same page and may be written. */
  lemma ProgramRuns(s: View, pr: Proc, b: Birth, i: nat, trampoline: nat, n: nat, x: nat)
    requires Inv(s) && Shape(s) && trampoline < MAXPAGES && n + 2 <= SLOTS && Image(s, pr, b, i, trampoline, n)
    requires x < PGSIZE
    ensures Executes(s, pr.pagetable / 4096, s.mem[b.trapframe][EPC] + x, if x < |b.bytes| then b.bytes[x] else 0)
    ensures x < s.mem[b.trapframe][USP] && Stores(s, pr.pagetable / 4096, s.mem[b.trapframe][USP] - x - 1)
  {
    hide AbsMap, MakePte, Ppn, IsUser, IsValid, IsReadable, IsWritable, IsExecutable, Reserved, PageByte, Translate,
         FreeListOk, EdgesOk, LeavesOk, FramesOk, NodesOk;
    UserPerms();
    NotReserved(b.frame, RWXU);
    HardwareAgrees(s, b.root, 0);
    DivModOf(b.root, 0, 4096);
  }

  /** User code of the process can reach the frame q. */
  ghost predicate Reaches(s: View, b: Birth, v: nat, q: nat) {
    v in AbsMap(s.mem, b.root) && IsUser(AbsMap(s.mem, b.root)[v]) && Ppn(AbsMap(s.mem, b.root)[v]) == q
  }

  lemma ReachesOwn(s: View, b: Birth, i: nat, trampoline: nat, v: nat, q: nat)
    requires Inv(s) && trampoline < MAXPAGES && Space(s, b, i, trampoline) && Reaches(s, b, v, q)
    ensures q == b.ipcPage || q == b.frame || (q == P_UART && b.io)
  {
    hide AbsMap, Ppn, IsUser, Inv, Space;
    SpacePages(s, b, i, trampoline, v);
  }

  /** User code of two processes shares no frame but the UART of io servers. */
  lemma UserFramesDisjoint(s: View, births: seq<Birth>, trampoline: nat, i: nat, j: nat, v: nat, u: nat, q: nat)
    requires Inv(s) && trampoline < MAXPAGES && Spaces(s, births, trampoline)
    requires i < |births| && j < |births| && i != j && P_UART !in s.role
    requires Reaches(s, births[i], v, q) && Reaches(s, births[j], u, q)
    ensures q == P_UART && births[i].io && births[j].io
  {
    hide AbsMap, ImageMap, Reaches, FreeListOk, EdgesOk, LeavesOk, FramesOk, NodesOk;
    ReachesOwn(s, births[i], i, trampoline, v, q);
    ReachesOwn(s, births[j], j, trampoline, u, q);
    DistinctRoots(s, births, trampoline, i, j);
  }

  /** Two processes have different trees: their ipc pages differ, and each tree maps its own. */
  lemma DistinctRoots(s: View, births: seq<Birth>, trampoline: nat, i: nat, j: nat)
    requires Inv(s) && trampoline < MAXPAGES && Spaces(s, births, trampoline)
    requires i < |births| && j < |births| && i != j
    ensures births[i].root != births[j].root
  {
    hide AbsMap, Ppn, FreeListOk, EdgesOk, LeavesOk, FramesOk, NodesOk, ImageMap;
    ImageHasIpc(trampoline, births[i]);
    ImageHasIpc(trampoline, births[j]);
  }

  lemma ImageHasIpc(trampoline: nat, b: Birth)
    requires trampoline < MAXPAGES && b.trapframe < MAXPAGES && b.ipcPage < MAXPAGES && b.frame < MAXPAGES
    ensures V_IPC in ImageMap(trampoline, b) && Ppn(ImageMap(trampoline, b)[V_IPC]) == b.ipcPage
  {
    MakePteFields(b.ipcPage, RWU);
    hide MakePte, Ppn;
  }

  /** No user page is a trapframe, the trampoline, an ipc block, a kernel stack, a page table or a free page, of any
      process. */
  lemma KernelPagesHidden(s: View, births: seq<Birth>, trampoline: nat, i: nat, v: nat, q: nat, j: nat)
    requires Inv(s) && trampoline < MAXPAGES && Spaces(s, births, trampoline)
    requires i < |births| && j < |births| && P_UART !in s.role && trampoline !in s.role && trampoline != P_UART
    requires Reaches(s, births[i], v, q)
    ensures q != trampoline && q != births[j].trapframe && q != births[j].ipcData && q != births[j].kstack
    ensures q in s.role ==> s.role[q] != Free && !s.role[q].Table?
  {
    hide AbsMap, ImageMap, Reaches, FreeListOk, EdgesOk, LeavesOk, FramesOk, NodesOk;
    ReachesOwn(s, births[i], i, trampoline, v, q);
    assert Space(s, births[i], i, trampoline) && Space(s, births[j], j, trampoline);
  }

  // ---------------------------------------------------------------- what keeps it

  /** Whatever changes only the contents of pages, and no translation, keeps the address spaces: the buffer calls do. */
  lemma SpacesKept(s: View, s': View, births: seq<Birth>, trampoline: nat, pages: set<nat>)
    requires Shape(s) && Shape(s') && trampoline < MAXPAGES && Spaces(s, births, trampoline) && OnlyPages(s, s', pages)
    ensures Spaces(s', births, trampoline)
  {
    hide AbsMap, ImageMap;
    forall i: nat | i < |births| ensures Space(s', births[i], i, trampoline) {
      assert Space(s, births[i], i, trampoline);
    }
  }

  /** A further birth keeps them. */
  lemma SpacesAfterBirth(s: View, s': View, births: seq<Birth>, trampoline: nat)
    requires Inv(s) && Shape(s') && trampoline < MAXPAGES && Spaces(s, births, trampoline) && LiveKept(s, s')
    ensures Spaces(s', births, trampoline)
  {
    hide AbsMap, ImageMap, FreeListOk, EdgesOk, LeavesOk, FramesOk, NodesOk;
    forall i: nat | i < |births| ensures Space(s', births[i], i, trampoline) {
      assert Space(s, births[i], i, trampoline);
      SameLookup(s, s'.mem, births[i].root);
    }
  }

  /** A store to memory that is neither free nor a table, the kernel's or a user's, disturbs no tree and no list. */
  lemma StoreKeeps(s: View, p: nat, page: seq<Word>)
    requires Inv(s) && p < |s.mem| && |page| == SLOTS && !IsFree(s, p) && !IsTable(s, p)
    ensures Inv(SetPage(s, p, page)) && OnlyPages(s, SetPage(s, p, page), {p})
  {
    hide IsValid, Ppn, MakePte, IsLeaf, FreeListOk, AbsMap;
    var s' := SetPage(s, p, page);
    FreeKept(s, s');
    TablesKept(s, s', {});
    forall root: nat | IsRoot(s, root) ensures AbsMap(s'.mem, root) == AbsMap(s.mem, root) {
      SameLookup(s, s'.mem, root);
    }
  }

  /** The pages of a process that only the kernel may change, and those that its own user code may change too. */
  function KernelOnly(b: Birth): set<nat> {
    {b.trapframe, b.ipcData, b.kstack}
  }

  function Private(b: Birth): set<nat> {
    {b.frame, b.ipcPage}
  }

  /** The pages of a process keep their contents, but for those it may change itself if `own`. */
  ghost predicate KeepsPages(s: View, s': View, b: Birth, own: bool) {
    forall p: nat :: p < |s.mem| && p < |s'.mem| && (p in KernelOnly(b) || (!own && p in Private(b))) ==>
      s'.mem[p] == s.mem[p]
  }

  /** A store by user code: everything stays in place, no kernel page of any process changes, and, the UART apart, no
      page of another process. */
  lemma UserStore(s: View, births: seq<Birth>, trampoline: nat, i: nat, v: nat, q: nat, page: seq<Word>)
    requires Inv(s) && trampoline < MAXPAGES && Spaces(s, births, trampoline) && i < |births|
    requires P_UART !in s.role && trampoline !in s.role && trampoline != P_UART
    requires Reaches(s, births[i], v, q) && q < |s.mem| && |page| == SLOTS
    ensures var s' := SetPage(s, q, page);
            && Inv(s') && Shape(s') && Spaces(s', births, trampoline)
            && (forall p: nat :: p < |s.mem| && IsTable(s, p) ==> s'.mem[p] == s.mem[p])
            && (forall j: nat {:trigger births[j]} :: j < |births| ==> KeepsPages(s, s', births[j], j == i))
  {
    hide AbsMap, ImageMap, Reaches, FreeListOk, EdgesOk, LeavesOk, FramesOk, NodesOk;
    KernelPagesHidden(s, births, trampoline, i, v, q, i);
    StoreKeeps(s, q, page);
    SpacesKept(s, SetPage(s, q, page), births, trampoline, {q});
    forall j: nat | j < |births| ensures q !in KernelOnly(births[j]) && (j != i ==> q !in Private(births[j])) {
      KernelPagesHidden(s, births, trampoline, i, v, q, j);
      ReachesOwn(s, births[i], i, trampoline, v, q);
      if j != i {
        DistinctRoots(s, births, trampoline, i, j);
        assert Space(s, births[i], i, trampoline) && Space(s, births[j], j, trampoline);
      }
    }
  }

  /** Stores by user code, one after the other. */
  datatype Store = Store(process: nat, vpn: nat, frame: nat, page: seq<Word>)

  ghost predicate StoreOk(s: View, births: seq<Birth>, x: Store) {
    x.process < |births| && Reaches(s, births[x.process], x.vpn, x.frame) && x.frame < |s.mem| && |x.page| == SLOTS
  }

  /** A run of user stores, each through the address space of its process as it then is. */
  ghost predicate StoreRun(views: seq<View>, births: seq<Birth>, stores: seq<Store>) {
    && |views| == |stores| + 1
    && forall k: nat {:trigger stores[k]} :: k < |stores| ==>
         StoreOk(views[k], births, stores[k]) && views[k + 1] == SetPage(views[k], stores[k].frame, stores[k].page)
  }

  /** Isolation holds after any number of user stores, and what a process does not store itself stays as it was. */
  lemma {:induction false} StoresKeepIsolation(views: seq<View>, births: seq<Birth>, stores: seq<Store>,
      trampoline: nat, k: nat, j: nat, p: nat)
    requires StoreRun(views, births, stores) && k < |views| && trampoline < MAXPAGES
    requires Inv(views[0]) && Shape(views[0]) && Spaces(views[0], births, trampoline)
    requires P_UART !in views[0].role && trampoline !in views[0].role && trampoline != P_UART
    requires j < |births| && p < |views[0].mem|
    ensures Inv(views[k]) && Shape(views[k]) && Spaces(views[k], births, trampoline)
    ensures views[k].role == views[0].role && |views[k].mem| == |views[0].mem|
    ensures p in KernelOnly(births[j]) ==> views[k].mem[p] == views[0].mem[p]
    ensures p in Private(births[j]) && (forall x :: 0 <= x < k ==> stores[x].process != j) ==>
              views[k].mem[p] == views[0].mem[p]
  {
    hide Inv, Spaces, Reaches, KernelOnly, Private;
    if k > 0 {
      StoresKeepIsolation(views, births, stores, trampoline, k - 1, j, p);
      var s, x := views[k - 1], stores[k - 1];
      assert StoreOk(s, births, x);
      UserStore(s, births, trampoline, x.process, x.vpn, x.frame, x.page);
      assert KeepsPages(s, views[k], births[j], j == x.process);
    }
  }
}
