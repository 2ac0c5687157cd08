/** The process table as process_manager.c and ipc.c see it, and the atomic step of the machine: one user trap. */
module Process {
  import opened Riscv

  datatype Status = Unused | Runnable | Running | Sleeping

  /** The message registers of a trapframe. */
  datatype Regs = Regs(a0: Word, a1: Word, a2: Word, a3: Word, a4: Word, a5: Word, a6: Word, a7: Word)

  /** struct process with its ipc block; `ipc` tells whether the block has been allocated. */
  datatype Slot = Slot(pid: int, state: Status, ipc: bool, name: Word, que: seq<Word>, isWaitMsg: Word, regs: Regs)

  /** The globals: the table, `current` and `next` (-1 for NULL), and the scheduler's static index. */
  datatype System = System(proc: seq<Slot>, current: int, next: int, idx: nat)

  datatype Outcome = Done(sys: System) | Panic

  // ---------------------------------------------------------------- ipc.c

  datatype Found = At(index: nat) | Nobody | Fault

  /** find_name_process from slot i on. A slot without an ipc block is a null dereference. */
  function FindFrom(proc: seq<Slot>, name: Word, i: nat): (r: Found)
    requires i <= |proc|
    ensures r.At? ==> i <= r.index < |proc| && proc[r.index].ipc && proc[r.index].name == name
    decreases |proc| - i
  {
    if i == |proc| then Nobody
    else if !proc[i].ipc then Fault
    else if proc[i].name == name then At(i)
    else FindFrom(proc, name, i + 1)
  }

  function Find(proc: seq<Slot>, name: Word): (r: Found)
    ensures r.At? ==> r.index < |proc| && proc[r.index].ipc && proc[r.index].name == name
  {
    FindFrom(proc, name, 0)
  }

  /** Slot j has an ipc block with another name: the search passes it. */
  predicate PassedOver(proc: seq<Slot>, name: Word, j: nat)
    requires j < |proc|
  {
    proc[j].ipc && proc[j].name != name
  }

  predicate AllPassed(proc: seq<Slot>, name: Word, i: nat, k: nat)
    requires k <= |proc|
  {
    forall j: nat :: i <= j < k ==> PassedOver(proc, name, j)
  }

  /** The search ends at the first slot that it cannot pass: there it has found the name, or there is no ipc block. */
  lemma {:induction false} FindFromMeaning(proc: seq<Slot>, name: Word, i: nat)
    requires i <= |proc|
    ensures match FindFrom(proc, name, i)
            case At(k) => i <= k < |proc| && proc[k].ipc && proc[k].name == name && AllPassed(proc, name, i, k)
            case Nobody => AllPassed(proc, name, i, |proc|)
            case Fault => exists k: nat :: i <= k < |proc| && !proc[k].ipc && AllPassed(proc, name, i, k)
    decreases |proc| - i
  {
    if i < |proc| && PassedOver(proc, name, i) {
      FindFromMeaning(proc, name, i + 1);
    }
  }

  /** The first zero slot of a queue from i on, its length if there is none. */
  function FirstZero(que: seq<Word>, i: nat): (k: nat)
    requires i <= |que|
    ensures i <= k <= |que| && (k < |que| ==> que[k] == 0) && forall j :: i <= j < k ==> que[j] != 0
    decreases |que| - i
  {
    if i == |que| || que[i] == 0 then i else FirstZero(que, i + 1)
  }

  /** The first slot with a name from i on, the queue's length if there is none. */
  function FirstNonZero(que: seq<Word>, i: nat): (k: nat)
    requires i <= |que|
    ensures i <= k <= |que| && (k < |que| ==> que[k] != 0) && forall j :: i <= j < k ==> que[j] == 0
    decreases |que| - i
  {
    if i == |que| || que[i] != 0 then i else FirstNonZero(que, i + 1)
  }

  /** A queue with slot k set. */
  function Put(que: seq<Word>, k: nat, w: Word): seq<Word>
    requires k < |que|
  {
    que[k := w]
  }

  /** copy_reg into dst's registers, with the sender's name then put in a3. */
  function CopyRegs(src: Regs, dst: Regs, name: Word): Regs {
    Regs(src.a0, src.a1, src.a2, name, src.a4, src.a5, dst.a6, dst.a7)
  }

  /** A call changes slots only, not what the scheduler keeps. */
  predicate SameGlobals(s: System, r: Outcome) {
    r.Done? ==> |r.sys.proc| == |s.proc| && r.sys.current == s.current && r.sys.next == s.next && r.sys.idx == s.idx
  }

  function Send(s: System): (r: Outcome)
    requires 0 <= s.current < |s.proc|
    ensures SameGlobals(s, r)
  {
    var cur := s.proc[s.current];
    match Find(s.proc, cur.regs.a6)
    case Nobody => Panic
    case Fault => Panic
    case At(d) =>
      if s.proc[d].state == Sleeping then
        var p := s.proc[d := s.proc[d].(regs := CopyRegs(cur.regs, s.proc[d].regs, cur.name), isWaitMsg := 0)];
        var p' := p[s.current := p[s.current].(state := Sleeping)];
        Done(s.(proc := p'[d := p'[d].(state := Runnable)]))
      else
        var k := FirstZero(s.proc[d].que, 0);
        if k == |s.proc[d].que| then Panic
        else
          var p := s.proc[d := s.proc[d].(que := Put(s.proc[d].que, k, cur.name))];
          Done(s.(proc := p[s.current := p[s.current].(isWaitMsg := 1, state := Sleeping)]))
  }

  function Recv(s: System): (r: Outcome)
    requires 0 <= s.current < |s.proc|
    ensures SameGlobals(s, r)
  {
    var cur := s.proc[s.current];
    var k := FirstNonZero(cur.que, 0);
    if k == |cur.que| then
      Done(s.(proc := s.proc[s.current := cur.(state := Sleeping, isWaitMsg := 1)]))
    else
      var p := s.proc[s.current := cur.(que := Put(cur.que, k, 0))];
      match Find(p, cur.que[k])
      case Nobody => Panic
      case Fault => Panic
      case At(i) =>
        var p1 := p[s.current := p[s.current].(regs := CopyRegs(p[i].regs, p[s.current].regs, p[i].name))];
        Done(s.(proc := p1[i := p1[i].(state := Runnable, isWaitMsg := 0)]))
  }

  function SetState(s: System, name: Word, state: Status): (r: Outcome)
    ensures SameGlobals(s, r)
  {
    match Find(s.proc, name)
    case At(i) => Done(s.(proc := s.proc[i := s.proc[i].(state := state)]))
    case _ => Panic
  }

  /** ipc_buf_cpy and buf2ipc_cpy work on memory, not on the table; here are their lookups, which may fault.
      buf2ipc_cpy dereferences the source at once and the destination only if the buffer is mapped. */
  function BufCopy(s: System, r: Regs): (o: Outcome)
    ensures SameGlobals(s, o)
  {
    if Find(s.proc, r.a0).Fault? || Find(s.proc, r.a1).Fault? then Panic else Done(s)
  }

  function BufToIpc(s: System, r: Regs, mapped: bool): (o: Outcome)
    ensures SameGlobals(s, o)
  {
    if !Find(s.proc, r.a3).At? || Find(s.proc, r.a0).Fault? then Panic
    else if mapped && Find(s.proc, r.a0).Nobody? then Panic
    else Done(s)
  }

  function IpcCall(s: System, mapped: bool): (o: Outcome)
    requires 0 <= s.current < |s.proc|
    ensures SameGlobals(s, o)
  {
    var r := s.proc[s.current].regs;
    if r.a7 == 0 then Send(s)
    else if r.a7 == 1 then Recv(s)
    else if r.a7 == 2 then BufCopy(s, r)
    else if r.a7 == 3 then BufToIpc(s, r, mapped)
    else if r.a7 == 4 then SetState(s, r.a0, Sleeping)
    else if r.a7 == 5 then SetState(s, r.a0, Runnable)
    else Panic
  }

  // ---------------------------------------------------------------- process_manager.c

  predicate Eligible(p: Slot) {
    p.state == Runnable && p.pid > 0
  }

  /** The i-th slot the scheduler looks at. */
  function Candidate(n: nat, idx: nat, i: nat): (id: nat)
    requires n > 0
    ensures id < n
  {
    (idx + i + 1) % n
  }

  /** How many slots the scheduler passes over, from its i-th look on; n if it finds none. */
  function Passed(proc: seq<Slot>, idx: nat, i: nat): (k: nat)
    requires |proc| > 0 && i <= |proc|
    ensures i <= k <= |proc|
    ensures k < |proc| ==> Eligible(proc[Candidate(|proc|, idx, k)])
    ensures forall j :: i <= j < k ==> !Eligible(proc[Candidate(|proc|, idx, j)])
    decreases |proc| - i
  {
    if i == |proc| || Eligible(proc[Candidate(|proc|, idx, i)]) then i else Passed(proc, idx, i + 1)
  }

  function Schedule(s: System): System
    requires |s.proc| > 0
  {
    var k := Passed(s.proc, s.idx, 0);
    if k < |s.proc| then
      var id := Candidate(|s.proc|, s.idx, k);
      s.(next := id, idx := id)
    else s.(next := s.current)
  }

  /** yield. With `current` NULL it is the first switch, out of main. */
  function Yield(s: System): Outcome
    requires |s.proc| > 0 && s.current < |s.proc|
  {
    var s1 := Schedule(s);
    if s1.next < 0 || s1.next >= |s.proc| then Panic
    else if s.current < 0 then
      Done(s1.(current := s1.next, proc := s.proc[s1.next := s.proc[s1.next].(state := Running)]))
    else
      var prev := if s.proc[s.current].isWaitMsg == 1 then Sleeping else Runnable;
      var p := s.proc[s.current := s.proc[s.current].(state := prev)];
      Done(s1.(current := s1.next, proc := p[s1.next := p[s1.next].(state := Running)]))
  }

  // ---------------------------------------------------------------- trap_handle.c

  /** A trap of the current user process, with the registers it trapped with and, for buf2ipc_cpy, whether the
      page of its buffer is mapped. */
  datatype Event = Tick(regs: Regs) | Ecall(regs: Regs, mapped: bool)

  function SaveRegs(s: System, regs: Regs): System
    requires 0 <= s.current < |s.proc|
  {
    s.(proc := s.proc[s.current := s.proc[s.current].(regs := regs)])
  }

  /** usertrap, taken as one atomic step; switch_context is the change of `current`. */
  function Step(s: System, e: Event): Outcome
    requires 0 <= s.current < |s.proc|
  {
    var s0 := SaveRegs(s, e.regs);
    match e
    case Tick(_) => Yield(s0)
    case Ecall(_, mapped) =>
      match IpcCall(s0, mapped)
      case Panic => Panic
      case Done(s1) => if s1.proc[s1.current].state == Sleeping then Yield(s1) else Done(s1)
  }
}
