/** Booting: the servers are read from the archive and born one by one, and the table they leave is one that the
    results about runs start from. */
module Boot {
  import opened Riscv
  import opened Wrappers
  import opened Process
  import opened PageTable
  import opened Building
  import opened ProcBorn
  import opened Kalloc
  import opened Vm
  import opened KernelMap
  import opened IpcBuffers
  import Runs
  import opened Ustar

  // ---------------------------------------------------------------- the process table as the calls see it

  const A0: nat := 14       // word of the trapframe that holds register a0; a1 .. a7 follow

  function RegsAt(page: seq<Word>): Regs
    requires |page| == SLOTS
  {
    Regs(page[A0], page[A0 + 1], page[A0 + 2], page[A0 + 3], page[A0 + 4], page[A0 + 5], page[A0 + 6], page[A0 + 7])
  }

  const NO_REGS := Regs(0, 0, 0, 0, 0, 0, 0, 0)

  /** A slot of the table, with its ipc block and its registers read from memory. */
  ghost function SlotIn(s: View, pr: Proc, n: nat): Slot
    requires Shape(s) && n + 2 <= SLOTS
  {
    var d, t := pr.ipcData / 4096, pr.trapframe / 4096;
    if pr.ipcData != 0 && d < |s.mem| && t < |s.mem| then
      Slot(pr.pid, pr.state, true, s.mem[d][0], s.mem[d][1..n + 1], s.mem[d][n + 1], RegsAt(s.mem[t]))
    else Slot(pr.pid, pr.state, false, 0, seq(n, _ => 0), 0, NO_REGS)
  }

  /** The globals before the first switch: `current` and `next` are NULL, the scheduler's index is 0. */
  ghost function SystemIn(s: View, procs: seq<Proc>): System
    requires Shape(s) && |procs| + 2 <= SLOTS
  {
    System(seq(|procs|, i requires 0 <= i < |procs| => SlotIn(s, procs[i], |procs|)), -1, -1, 0)
  }

  /** The buffer calls change nothing that the process machine looks at: ipc pages are not trapframes or ipc blocks. */
  lemma BuffersKeepSystem(s: View, s': View, procs: seq<Proc>, births: seq<Birth>, d: nat, o: nat)
    requires Shape(s) && Shape(s') && |procs| + 2 <= SLOTS && Processes(s, procs, births)
    requires d < |births| && o < |births| && OnlyPages(s, s', {births[d].ipcPage, births[o].ipcPage})
    ensures SystemIn(s', procs) == SystemIn(s, procs)
  {
    hide AbsMap;
    assert Attached(s, procs[d], births[d], d) && Attached(s, procs[o], births[o], o);
    forall i: nat | i < |procs| ensures SlotIn(s', procs[i], |procs|) == SlotIn(s, procs[i], |procs|) {
      if i < |births| {
        assert Attached(s, procs[i], births[i], i);
        PageOf(births[i].ipcData);
        PageOf(births[i].trapframe);
      }
    }
  }

  function NamesOf(births: seq<Birth>): seq<Word> {
    seq(|births|, i requires 0 <= i < |births| => births[i].name)
  }

  lemma BornSlot(s: View, pr: Proc, b: Birth, i: nat, trampoline: nat, n: nat)
    requires Shape(s) && trampoline < MAXPAGES && n + 2 <= SLOTS && Image(s, pr, b, i, trampoline, n)
    ensures var p := SlotIn(s, pr, n);
            && p.pid == i + 1 && p.state == Runnable && p.ipc && p.name == b.name && |p.que| == n && p.isWaitMsg != 1
            && forall k :: 0 <= k < n ==> p.que[k] == 0
  {
    PageOf(b.ipcData);
    PageOf(b.trapframe);
  }

  lemma PageOf(p: nat)
    ensures p * 4096 / 4096 == p
  {
  }

  /** The table that the births leave is one that runs start from. */
  lemma LiveIsBooted(s: View, procs: seq<Proc>, births: seq<Birth>, trampoline: nat)
    requires Shape(s) && trampoline < MAXPAGES && |procs| + 2 <= SLOTS && Live(s, procs, births, trampoline)
    requires Runs.Distinct(NamesOf(births))
    ensures Runs.Booted(SystemIn(s, procs), NamesOf(births))
  {
    hide Image, SlotIn;
    var sys, names := SystemIn(s, procs), NamesOf(births);
    forall i: nat | i < |procs|
      ensures Runs.SlotOk(sys.proc[i], i, names, |procs|)
      ensures i < |births| ==>
                && sys.proc[i].state == Runnable && sys.proc[i].isWaitMsg != 1
                && forall k :: 0 <= k < |procs| ==> sys.proc[i].que[k] == 0
    {
      if i < |births| {
        assert Image(s, procs[i], births[i], i, trampoline, |procs|);
        BornSlot(s, procs[i], births[i], i, trampoline, |procs|);
      } else {
        UnusedSlot(s, procs[i], |procs|);
      }
    }
  }

  lemma UnusedSlot(s: View, pr: Proc, n: nat)
    requires Shape(s) && n + 2 <= SLOTS && pr.state == Unused && pr.pid == 0 && pr.ipcData == 0
    ensures var p := SlotIn(s, pr, n);
            !p.ipc && p.pid == 0 && p.state == Unused && |p.que| == n
  {
  }

  /** With at least one process born, the first yield starts one, and the invariant of runs holds from there on. */
  lemma BootRuns(s: View, procs: seq<Proc>, births: seq<Birth>, trampoline: nat)
    requires Shape(s) && trampoline < MAXPAGES && |procs| + 2 <= SLOTS && Live(s, procs, births, trampoline)
    requires Runs.Distinct(NamesOf(births)) && |births| > 0
    ensures Yield(SystemIn(s, procs)).Done? && Runs.Inv(Yield(SystemIn(s, procs)).sys, NamesOf(births))
  {
    hide Live, Yield, Runs.Booted, Runs.Inv;
    LiveSize(s, procs, births, trampoline);
    LiveIsBooted(s, procs, births, trampoline);
    Runs.BootStarts(SystemIn(s, procs), NamesOf(births));
  }

  lemma LiveSize(s: View, procs: seq<Proc>, births: seq<Birth>, trampoline: nat)
    requires Shape(s) && trampoline < MAXPAGES && |procs| + 2 <= SLOTS && Live(s, procs, births, trampoline)
    ensures |births| <= |procs|
  {
    hide Image;
  }

  // ---------------------------------------------------------------- init_servers

  datatype Server = Server(file: seq<Byte>, name: Word, io: bool)

  /** The archive member a server is loaded from. */
  function MemberOf(es: seq<Entry>, v: Server): nat {
    FirstMatch(es, CString(v.file, 0), 0)
  }

  /** The archive has the server's binary, and it fits a page; otherwise the source panics. */
  ghost predicate Available(es: seq<Entry>, v: Server) {
    Terminated(v.file, 0) && MemberOf(es, v) < |es| && |es[MemberOf(es, v)].data| <= PGSIZE
  }

  /** Birth b is what the table asks for. */
  ghost predicate AsAsked(es: seq<Entry>, v: Server, b: Birth)
    requires MemberOf(es, v) < |es|
  {
    b.name == v.name && b.io == v.io && b.bytes == es[MemberOf(es, v)].data
  }

  ghost predicate AllAvailable(es: seq<Entry>, servers: seq<Server>) {
    (forall e :: e in es ==> EntryOk(e)) && forall i :: 0 <= i < |servers| ==> Available(es, servers[i])
  }

  ghost predicate AllAsAsked(es: seq<Entry>, servers: seq<Server>, births: seq<Birth>) {
    |births| <= |servers| &&
    forall i :: 0 <= i < |births| ==> MemberOf(es, servers[i]) < |es| && AsAsked(es, servers[i], births[i])
  }

  /** The archive lies at physical address `base`, below the managed pages. */
  ghost predicate Loaded(s: View, base: nat, archive: seq<Byte>, end: nat)
    requires Shape(s)
  {
    base + |archive| <= end && base + |archive| <= |s.mem| * 4096 && BinaryAt(s.mem, base, |archive|) == archive
  }

  lemma PartOfArchive(mem: Memory, base: nat, n: nat, off: nat, size: nat)
    requires base + n <= |mem| * 4096 && (forall p :: 0 <= p < |mem| ==> |mem[p]| == SLOTS) && off + size <= n
    ensures BinaryAt(mem, base + off, size) == BinaryAt(mem, base, n)[off..off + size]
  {
    hide ByteAt;
  }

  lemma RoleAboveEnd(k: Machine)
    requires k.Valid()
    ensures forall p: nat :: p in k.view.role ==> k.end <= p * 4096
  {
  }

  /** init_servers: one process for each server of the table, with the bytes the archive has under its name. */
  method InitServers(k: Machine, proc: array<Proc>, trampoline: Word, base: nat, archive: seq<Byte>,
      servers: seq<Server>, ghost es: seq<Entry>)
    returns (ghost births: seq<Birth>)
    requires Ok(k) && Shape(k.view) && trampoline % 4096 == 0 && trampoline / 4096 < MAXPAGES
             && proc.Length + 2 <= SLOTS
    requires Live(k.view, proc[..], [], trampoline / 4096)
    requires archive == Archive(es) && AllAvailable(es, servers) && Loaded(k.view, base, archive, k.end)
    requires |servers| <= proc.Length && |k.view.free| >= 10 * |servers|
    modifies k`view, k`freelist, k.ram, proc
    ensures Ok(k) && Shape(k.view) && LiveKept(old(k.view), k.view)
    ensures Live(k.view, proc[..], births, trampoline / 4096)
    ensures |births| == |servers| && AllAsAsked(es, servers, births)
    ensures |k.view.free| == |old(k.view.free)| - 10 * |servers|
  {
    hide LiveKept, Inv, Image, Live, Machine.Valid, BinaryAt, Archive, Offset, FirstMatch, CString, EntryOk, Terminated;
    births := [];
    ghost var s0 := k.view;
    LiveKeptRefl(s0);
    var i := 0;
    while i < |servers|
      invariant 0 <= i <= |servers| && Ok(k) && Shape(k.view) && LiveKept(s0, k.view) && |k.view.mem| == |s0.mem|
      invariant Live(k.view, proc[..], births, trampoline / 4096) && |births| == i
      invariant AllAsAsked(es, servers, births)
      invariant |k.view.free| == |s0.free| - 10 * i
    {
      ghost var s, v := k.view, servers[i];
      assert Available(es, v);
      var prog := FindBinary(archive, servers[i].file, es);
      assert prog.data != None;
      ghost var off := Offset(es, MemberOf(es, v)) + 512;
      RoleAboveEnd(k);
      LiveIsUnmanaged(s0, s);
      BinaryKept(s0, s, base, |archive|, k.end);
      PartOfArchive(s.mem, base, |archive|, off, prog.size);
      ghost var b := Born(k, proc, trampoline, base + prog.data.value, prog.size, servers[i].name, servers[i].io,
          births);
      LiveKeptTransitive(s0, s, k.view);
      LiveKeptSize(s, k.view);
      births := births + [b];
      i := i + 1;
    }
  }

  /** The table in the source. */
  const SERVERS: seq<Server> := [
    Server([46, 47, 86, 70, 83, 46, 98, 105, 110, 0], 10, false),                          // ./VFS.bin
    Server([46, 47, 116, 101, 114, 109, 105, 110, 97, 108, 46, 98, 105, 110, 0], 11, true), // ./terminal.bin
    Server([46, 47, 117, 105, 110, 112, 117, 116, 46, 98, 105, 110, 0], 13, true),          // ./uinput.bin
    Server([46, 47, 115, 104, 101, 108, 108, 46, 98, 105, 110, 0], 12, false)               // ./shell.bin
  ]

  function ServerNames(servers: seq<Server>): seq<Word> {
    seq(|servers|, i requires 0 <= i < |servers| => servers[i].name)
  }

  /** Its names are distinct and not zero. */
  lemma ServersDistinct()
    ensures ServerNames(SERVERS) == [10, 11, 13, 12] && Runs.Distinct(ServerNames(SERVERS))
  {
    assert ServerNames(SERVERS) == [10, 11, 13, 12];
  }

  lemma NamesAsAsked(es: seq<Entry>, servers: seq<Server>, births: seq<Birth>)
    requires |births| == |servers| && AllAsAsked(es, servers, births)
    ensures NamesOf(births) == ServerNames(servers)
  {
    hide MemberOf;
    forall i: nat | i < |births| ensures births[i].name == servers[i].name {
      assert AsAsked(es, servers[i], births[i]);
    }
  }

  // ---------------------------------------------------------------- main

  /** A table of unused slots, as the kernel image has it. */
  ghost predicate Blank(procs: seq<Proc>) {
    forall i :: 0 <= i < |procs| ==> procs[i].state == Unused && procs[i].pid == 0 && procs[i].ipcData == 0
  }

  lemma BlankIsLive(s: View, procs: seq<Proc>, trampoline: nat)
    requires Shape(s) && trampoline < MAXPAGES && |procs| + 2 <= SLOTS && Blank(procs)
    ensures Live(s, procs, [], trampoline)
  {
    hide Image;
  }

  /** How many pages kinit finds. */
  function ManagedPages(end: nat, n: nat): nat {
    var lo := (end + 4095) / 4096;
    if lo < n then n - lo else 0
  }

  lemma KinitPages(end: nat, n: nat)
    ensures |Descending((end + 4095) / 4096, n)| == ManagedPages(end, n)
  {
    if (end + 4095) / 4096 <= n {
      DescendingSize((end + 4095) / 4096, n);
    }
  }

  lemma LoadedKept(s: View, s': View, base: nat, archive: seq<Byte>, end: nat)
    requires Shape(s) && Shape(s') && Loaded(s, base, archive, end) && UnmanagedKept(s, s')
    requires forall p: nat :: p in s'.role ==> end <= p * 4096
    ensures Loaded(s', base, archive, end)
  {
    hide BinaryAt;
    BinaryKept(s, s', base, |archive|, end);
  }

  lemma KinitKeeps(s: View, s': View)
    requires |s'.mem| == |s.mem| && s'.role.Keys == s.role.Keys
    requires forall p: nat :: p < |s'.mem| && p !in s'.role ==> s'.mem[p] == s.mem[p]
    ensures UnmanagedKept(s, s')
  {
  }

  /** main, up to the first switch: kinit, kvminit and init_servers, from power-on with the archive in memory below
      `end`. The kernel map is built and still stands, each server has its binary, memory below `end` is as it was,
      the pages spent are counted exactly, and, if the servers' names are distinct, the first yield starts a run. */
  method BootKernel(k: Machine, proc: array<Proc>, etext: Word, trampoline: Word, base: nat, archive: seq<Byte>,
      servers: seq<Server>, ghost es: seq<Entry>)
    returns (kpgtbl: Word, ghost root: nat, ghost births: seq<Birth>)
    requires k.AtPowerOn() && Shape(k.view) && k.end + 4095 < WORD_MODULUS
    requires etext % 4096 == 0 && KERNBASE < etext < PHYSTOP && trampoline % 4096 == 0 && trampoline / 4096 < MAXPAGES
    requires proc.Length + 2 <= SLOTS && Blank(proc[..]) && |servers| <= proc.Length
    requires archive == Archive(es) && AllAvailable(es, servers) && Loaded(k.view, base, archive, k.end)
    requires 68 + 10 * |servers| <= ManagedPages(k.end, |k.view.mem|)
    modifies k`view, k`freelist, k.ram, proc
    ensures Ok(k) && Shape(k.view) && UnmanagedKept(old(k.view), k.view)
    ensures IsRoot(k.view, root) && kpgtbl == root * 4096
    ensures AbsMap(k.view.mem, root) == KernelMappings(etext, trampoline)
    ensures Live(k.view, proc[..], births, trampoline / 4096)
    ensures |births| == |servers| && AllAsAsked(es, servers, births)
    ensures |k.view.free| == ManagedPages(k.end, |k.view.mem|) - 68 - 10 * |servers|
    ensures Runs.Distinct(ServerNames(servers)) && |servers| > 0 ==>
              && Yield(SystemIn(k.view, proc[..])).Done?
              && Runs.Inv(Yield(SystemIn(k.view, proc[..])).sys, ServerNames(servers))
  {
    hide LiveKept, UnmanagedKept, Inv, Image, Live, Machine.Valid, Loaded, Archive, AllAvailable, AllAsAsked, AbsMap,
         KernelMappings, Yield, SystemIn, Runs.Inv, Runs.Distinct, Descending, Blank;
    ghost var s0 := k.view;
    KinitPages(k.end, |s0.mem|);
    k.Kinit();
    ghost var s1 := k.view;
    KinitKeeps(s0, s1);
    kpgtbl, root := KvmMake(k, etext, trampoline);
    ghost var s2 := k.view;
    InvShape(s2);
    LiveIsUnmanaged(s1, s2);
    UnmanagedTransitive(s0, s1, s2);
    RoleAboveEnd(k);
    LoadedKept(s0, s2, base, archive, k.end);
    BlankIsLive(s2, proc[..], trampoline / 4096);
    births := InitServers(k, proc, trampoline, base, archive, servers, es);
    LiveIsUnmanaged(s2, k.view);
    UnmanagedTransitive(s0, s2, k.view);
    LiveTrees(s2, k.view, root);
    LiveKeptSize(s1, s2);
    LiveKeptSize(s2, k.view);
    NamesAsAsked(es, servers, births);
    if Runs.Distinct(ServerNames(servers)) && |servers| > 0 {
      BootRuns(k.view, proc[..], births, trampoline / 4096);
    }
  }
}
