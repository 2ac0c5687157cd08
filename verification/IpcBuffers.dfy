/** The buffer copies of ipc.c: from one process's memory to another's ipc page, on physical memory. */
module IpcBuffers {
  import opened Riscv
  import opened Wrappers
  import opened PageTable
  import opened Translation
  import opened ProcBorn
  import opened Kalloc
  import opened Vm

  // ---------------------------------------------------------------- the processes in memory

  /** The process in slot i: its trapframe, ipc page and ipc block are its own, its name is in the block. */
  ghost predicate Attached(s: View, pr: Proc, b: Birth, i: nat)
    requires Shape(s)
  {
    && HeldBy(s, b.trapframe, Owner(i, 0)) && HeldBy(s, b.ipcPage, Owner(i, 1)) && HeldBy(s, b.ipcData, Owner(i, 2))
    && IsRoot(s, b.root) && pr.trapframe == b.trapframe * 4096 && pr.ipcPage == b.ipcPage * 4096
    && pr.ipcData == b.ipcData * 4096 && pr.pagetable == b.root * 4096
    && s.mem[b.ipcData][0] == b.name
  }

  ghost predicate Processes(s: View, procs: seq<Proc>, births: seq<Birth>)
    requires Shape(s)
  {
    && |births| <= |procs|
    && (forall i: nat {:trigger births[i]} :: i < |births| ==> Attached(s, procs[i], births[i], i))
    && (forall i :: |births| <= i < |procs| ==> procs[i].ipcData == 0)
  }

  /** Processes start out in this state. */
  lemma BornAttached(s: View, procs: seq<Proc>, births: seq<Birth>, trampoline: nat)
    requires Shape(s) && trampoline < MAXPAGES && |procs| + 2 <= SLOTS && Live(s, procs, births, trampoline)
    ensures Processes(s, procs, births)
  {
    hide AbsMap, ImageMap, HoldsBinary;
  }

  /** The first process of that name from slot i on; the number of processes if there is none. */
  function SlotOf(births: seq<Birth>, name: Word, i: nat): (r: nat)
    requires i <= |births|
    ensures i <= r <= |births| && (r < |births| ==> births[r].name == name)
            && forall j :: i <= j < r ==> births[j].name != name
    decreases |births| - i
  {
    if i == |births| || births[i].name == name then i else SlotOf(births, name, i + 1)
  }

  predicate Registered(births: seq<Birth>, name: Word) {
    SlotOf(births, name, 0) < |births|
  }

  /** find_name_process, reading the names from memory. A search that runs past the used slots would dereference a
      null ipc block, so the name must be registered unless every slot is used. */
  method FindName(k: Machine, proc: array<Proc>, name: Word, ghost births: seq<Birth>) returns (r: Option<nat>)
    requires Ok(k) && Shape(k.view) && Processes(k.view, proc[..], births)
    requires Registered(births, name) || |births| == proc.Length
    ensures r == if Registered(births, name) then Some(SlotOf(births, name, 0)) else None
  {
    hide Machine.Valid, Inv;
    var i := 0;
    while i < proc.Length
      invariant 0 <= i <= proc.Length && i <= |births| && SlotOf(births, name, 0) == SlotOf(births, name, i)
    {
      assert i < |births|;
      assert Attached(k.view, proc[..][i], births[i], i);
      var w := k.Load(proc[i].ipcData, births[i].ipcData, 0);
      if w == name { return Some(i); }
      i := i + 1;
    }
    return None;
  }

  // ---------------------------------------------------------------- what a copy leaves alone

  /** Nothing changed but the contents of the given pages, and no translation did. */
  ghost predicate OnlyPages(s: View, s': View, pages: set<nat>) {
    && |s'.mem| == |s.mem| && s'.role == s.role && s'.free == s.free && s'.head == s.head
    && (forall p: nat :: p < |s.mem| && p !in pages ==> s'.mem[p] == s.mem[p])
    && (forall root: nat :: IsRoot(s, root) ==> AbsMap(s'.mem, root) == AbsMap(s.mem, root))
  }

  /** Writing one process's ipc page disturbs no tree, no free page, no other process. */
  lemma WriteIpcPage(s0: View, s: View, procs: seq<Proc>, births: seq<Birth>, pages: set<nat>, i: nat, page: seq<Word>)
    requires Inv(s) && Shape(s) && Processes(s, procs, births) && OnlyPages(s0, s, pages) && i < |births|
             && |page| == SLOTS
    ensures births[i].ipcPage < |s.mem| && |s.mem| == |s0.mem| <= MAXPAGES && |s.mem[births[i].ipcPage]| == SLOTS
    ensures procs[i].ipcPage == births[i].ipcPage * 4096
    ensures var s' := SetPage(s, births[i].ipcPage, page);
            Inv(s') && Shape(s') && Processes(s', procs, births) && OnlyPages(s0, s', pages + {births[i].ipcPage})
  {
    hide AbsMap, FreeListOk, NodesOk, EdgesOk, LeavesOk, FramesOk;
    var q := births[i].ipcPage;
    assert Attached(s, procs[i], births[i], i);
    HeldInv(s, q, page, 0);
    var s' := SetPage(s, q, page);
    forall root: nat | IsRoot(s, root) ensures AbsMap(s'.mem, root) == AbsMap(s.mem, root) {
      SameLookup(s, s'.mem, root);
    }
    forall j: nat | j < |births| ensures Attached(s', procs[j], births[j], j) {
      assert Attached(s, procs[j], births[j], j);
    }
  }

  lemma StartPages(s: View)
    ensures OnlyPages(s, s, {})
  {
    hide AbsMap;
  }

  /** The byte at offset b of a page. */
  ghost function Cell(s: View, p: nat, b: nat): Byte
    requires Shape(s) && p < |s.mem| && b < PGSIZE
  {
    PageByte(s.mem[p], b)
  }

  /** A byte of a range within one page, addressed physically. */
  lemma CellAt(s: View, p: nat, off: nat, b: nat)
    requires Shape(s) && p < |s.mem| && off + b < PGSIZE
    ensures (p * 4096 + off + b) / 4096 == p && ByteAt(s.mem, p * 4096 + off + b) == Cell(s, p, off + b)
  {
    hide PageByte;
    DivModOf(p, off + b, 4096);
    assert p * 4096 + off + b == p * 4096 + (off + b);
  }

  /** memset of the destination's ipc page, memcpy of `size` bytes from offset `off` of page f to its start, memset of
      the source's ipc page. What was in the two pages goes, except that what is copied from the source's is read
      first. */
  method ClearCopyClear(k: Machine, proc: array<Proc>, d: nat, o: nat, from: Word, size: nat, ghost f: nat,
      ghost off: nat, ghost births: seq<Birth>)
    requires Ok(k) && Shape(k.view) && Processes(k.view, proc[..], births) && d < |births| && o < |births|
    requires f < |k.view.mem| && off + size <= PGSIZE && from == f * 4096 + off
    modifies k`view, k`freelist, k.ram
    ensures Ok(k) && Shape(k.view) && Processes(k.view, proc[..], births)
    ensures HeldBy(k.view, births[d].ipcPage, Owner(d, 1)) && HeldBy(k.view, births[o].ipcPage, Owner(o, 1))
    ensures OnlyPages(old(k.view), k.view, {births[d].ipcPage, births[o].ipcPage})
    ensures forall b: nat :: b < PGSIZE ==> Cell(k.view, births[o].ipcPage, b) == 0
    ensures d != o ==> forall b: nat :: b < PGSIZE ==>
              Cell(k.view, births[d].ipcPage, b) == if b < size
                  && f != births[d].ipcPage then Cell(old(k.view), f, off + b) else 0
  {
    hide Machine.Valid, AbsMap, Inv, PageByte, ByteAt, Repeated, OnlyPages, Processes;
    ghost var s0, procs := k.view, proc[..];
    ghost var dp, op := births[d].ipcPage, births[o].ipcPage;
    RepeatedJunk();
    ZeroBytes();
    StartPages(s0);
    assert {} + {dp} == {dp} && {dp} + {dp} == {dp} && {dp} + {op} == {dp, op};
    WriteIpcPage(s0, s0, procs, births, {}, d, Filled(0));
    IpcPageHolder(s0, procs, births, o);
    assert proc[d] == procs[d] && proc[o] == procs[o];
    k.MemsetPage(proc[d].ipcPage, 0, dp);
    ghost var s1 := k.view;
    MemoryBytes(k);
    ForwardSafe(dp, f, off, size);
    k.CopyInto(proc[d].ipcPage, from, size, false, dp, 0);
    ghost var s2, page := k.view, k.view.mem[dp];
    WriteIpcPage(s0, s1, procs, births, {dp}, d, page);
    WriteIpcPage(s0, s2, procs, births, {dp}, o, Filled(0));
    k.MemsetPage(proc[o].ipcPage, 0, op);
    IpcPageHolder(k.view, procs, births, d);
    IpcPageHolder(k.view, procs, births, o);
    forall b: nat | b < PGSIZE && d != o
      ensures Cell(k.view, dp, b) == if b < size && f != dp then Cell(s0, f, off + b) else 0
    {
      assert k.view.mem[dp] == page;
      assert PageByte(page, b) == if 0 <= b < 0 + size then ByteAt(s1.mem, from + (b - 0)) else PageByte(s1.mem[dp], b);
      if b < size {
        CellAt(s1, f, off, b);
      }
    }
  }

  lemma IpcPageHolder(s: View, procs: seq<Proc>, births: seq<Birth>, i: nat)
    requires Shape(s) && Processes(s, procs, births) && i < |births|
    ensures HeldBy(s, births[i].ipcPage, Owner(i, 1)) && births[i].ipcPage < |s.mem| && |births| <= |procs|
  {
    assert Attached(s, procs[i], births[i], i);
  }

  lemma MemoryBytes(k: Machine)
    requires k.Valid()
    ensures k.ram.Length == |k.view.mem| * 4096 && Shape(k.view)
  {
  }

  /** A copy to the start of a page from within a page goes forward safely. */
  lemma ForwardSafe(d: nat, f: nat, off: nat, size: nat)
    requires off + size <= PGSIZE
    ensures d * 4096 <= f * 4096 + off || f * 4096 + off + size <= d * 4096
  {
  }

  // ---------------------------------------------------------------- the two calls

  /** ipc_buf_cpy: the first `size` bytes of the source's ipc page go to the destination's, and the source's is cleared.
      A process that names itself twice only clears its page. */
  method IpcBufCpy(k: Machine, proc: array<Proc>, dst: Word, src: Word, size: Word,
      ghost births: seq<Birth>) returns (ok: bool)
    requires Ok(k) && Shape(k.view) && Processes(k.view, proc[..], births) && size <= PGSIZE
    requires (Registered(births, dst) && Registered(births, src)) || |births| == proc.Length
    modifies k`view, k`freelist, k.ram
    ensures Ok(k) && Shape(k.view) && Processes(k.view, proc[..], births)
    ensures ok <==> Registered(births, dst) && Registered(births, src)
    ensures !ok ==> k.view == old(k.view)
    ensures ok ==>
              var d, o := births[SlotOf(births, dst, 0)].ipcPage, births[SlotOf(births, src, 0)].ipcPage;
              && OnlyPages(old(k.view), k.view, {d, o}) && d < |k.view.mem| && o < |k.view.mem|
              && (forall b: nat :: b < PGSIZE ==> Cell(k.view, o, b) == 0)
              && (SlotOf(births, dst, 0) != SlotOf(births, src, 0) ==>
                    d != o && forall b: nat :: b < PGSIZE ==>
                        Cell(k.view, d, b) == if b < size then Cell(old(k.view), o, b) else 0)
  {
    hide Machine.Valid, AbsMap, Inv, PageByte, Cell, OnlyPages, Processes, SlotOf;
    var d := FindName(k, proc, dst, births);
    var o := FindName(k, proc, src, births);
    if d == None || o == None { return false; }
    IpcPageHolder(k.view, proc[..], births, o.value);
    assert proc[..][o.value] == proc[o.value];
    StartPages(k.view);
    WriteIpcPage(k.view, k.view, proc[..], births, {}, o.value, Filled(0));
    ClearCopyClear(k, proc, d.value, o.value, proc[o.value].ipcPage, size, births[o.value].ipcPage, 0, births);
    ok := true;
  }

  /** buf2ipc_cpy: the destination's ipc page becomes the source process's bytes at [va, va + size), read through its
      page table, then zeros; the source's own ipc page is cleared. Without a user mapping at va nothing happens. */
  method Buf2IpcCpy(k: Machine, proc: array<Proc>, dst: Word, va: Word, size: Word, src: Word,
      ghost births: seq<Birth>) returns (ok: bool)
    requires Ok(k) && Shape(k.view) && Processes(k.view, proc[..], births) && va % 4096 + size <= PGSIZE
    requires Registered(births, src) && (Registered(births, dst) || |births| == proc.Length)
    requires UserFrame(k.view.mem, births[SlotOf(births, src, 0)].root, va / 4096 * 4096) != 0 ==>
             Registered(births, dst)
    requires UserFrame(k.view.mem, births[SlotOf(births, src, 0)].root, va / 4096 * 4096) < |k.view.mem| * 4096
    modifies k`view, k`freelist, k.ram
    ensures Ok(k) && Shape(k.view) && Processes(k.view, proc[..], births)
    ensures ok <==> UserFrame(old(k.view.mem), births[SlotOf(births, src, 0)].root, va / 4096 * 4096) != 0
    ensures !ok ==> k.view == old(k.view)
    ensures ok ==>
              var d, o := births[SlotOf(births, dst, 0)].ipcPage, births[SlotOf(births, src, 0)].ipcPage;
              var f := UserFrame(old(k.view.mem), births[SlotOf(births, src, 0)].root, va / 4096 * 4096) / 4096;
              && f < |old(k.view.mem)|
              && OnlyPages(old(k.view), k.view, {d, o}) && d < |k.view.mem| && o < |k.view.mem|
              && (forall b: nat :: b < PGSIZE ==> Cell(k.view, o, b) == 0)
              && (SlotOf(births, dst, 0) != SlotOf(births, src, 0) ==>
                    d != o && forall b: nat :: b < PGSIZE ==>
                      Cell(k.view, d, b) == if b < size && f != d then Cell(old(k.view), f, va % 4096 + b) else 0)
  {
    hide Machine.Valid, AbsMap, Inv, PageByte, Cell, OnlyPages, Processes, SlotOf, UserFrame;
    var o := FindName(k, proc, src, births);
    var d := FindName(k, proc, dst, births);
    RootOf(k.view, proc[..], births, o.value);
    assert proc[..][o.value] == proc[o.value];
    var va0 := PgRoundDown(va);
    var pa0 := WalkAddr(k, proc[o.value].pagetable, va0, births[o.value].root);
    if pa0 == 0 { return false; }
    FrameAligned(k.view.mem, births[o.value].root, va0);
    ClearCopyClear(k, proc, d.value, o.value, pa0 + (va - va0), size, pa0 / 4096, va % 4096, births);
    ok := true;
  }

  lemma RootOf(s: View, procs: seq<Proc>, births: seq<Birth>, i: nat)
    requires Shape(s) && Processes(s, procs, births) && i < |births|
    ensures |births| <= |procs| && IsRoot(s, births[i].root) && procs[i].pagetable == births[i].root * 4096
  {
    assert Attached(s, procs[i], births[i], i);
  }

  lemma FrameAligned(mem: Memory, root: nat, va: Word)
    ensures UserFrame(mem, root, va) % 4096 == 0
  {
    hide AbsMap, IsUser;
  }
}
