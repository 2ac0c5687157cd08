/** The kernel's process table in place: ipc.c, the scheduler and the trap dispatch, against the functions of
      Process. */
module Ipc {
  import opened Riscv
  import opened Process

  class Kernel {
    const proc: array<Slot>
    var current: int      // index of the running process, -1 before the first switch
    var next: int
    var idx: nat          // the scheduler's static variable

    ghost function Sys(): System
      reads this, proc
    {
      System(proc[..], current, next, idx)
    }

    /** The globals before the first switch, around a table that the births have filled. */
    constructor (slots: seq<Slot>)
      ensures Sys() == System(slots, -1, -1, 0) && fresh(proc)
    {
      proc := new Slot[|slots|](i requires 0 <= i < |slots| => slots[i]);
      current, next, idx := -1, -1, 0;
    }

    /** find_name_process. The dereference of a missing ipc block is the result Fault. */
    method FindNameProcess(name: Word) returns (r: Found)
      ensures r == Find(proc[..], name)
    {
      var i := 0;
      while i < proc.Length
        invariant 0 <= i <= proc.Length
        invariant Find(proc[..], name) == FindFrom(proc[..], name, i)
      {
        if !proc[i].ipc { return Fault; }
        if proc[i].name == name { return At(i); }
        i := i + 1;
      }
      r := Nobody;
    }

    /** add_que; false is the overflow panic. */
    method AddQue(d: nat, name: Word) returns (ok: bool)
      requires d < proc.Length
      modifies proc
      ensures var que, k := old(proc[d].que), FirstZero(old(proc[d].que), 0);
              && (ok <==> k < |que|)
              && proc[..] == if ok then old(proc[..])[d := old(proc[d]).(que := Put(que, k, name))] else old(proc[..])
    {
      ghost var que := proc[d].que;
      var i := 0;
      while i < |proc[d].que|
        invariant 0 <= i <= |proc[d].que| && proc[..] == old(proc[..])
        invariant FirstZero(que, 0) == FirstZero(que, i)
      {
        if proc[d].que[i] == 0 {
          proc[d] := proc[d].(que := Put(proc[d].que, i, name));
          return true;
        }
        i := i + 1;
      }
      ok := false;
    }

    /** extract_que; 0 if the queue is empty. */
    method ExtractQue(c: nat) returns (name: Word)
      requires c < proc.Length
      modifies proc
      ensures var que, k := old(proc[c].que), FirstNonZero(old(proc[c].que), 0);
              if k < |que| then name == que[k] && proc[..] == old(proc[..])[c := old(proc[c]).(que := Put(que, k, 0))]
              else name == 0 && proc[..] == old(proc[..])
    {
      ghost var que := proc[c].que;
      var i := 0;
      while i < |proc[c].que|
        invariant 0 <= i <= |proc[c].que| && proc[..] == old(proc[..])
        invariant FirstNonZero(que, 0) == FirstNonZero(que, i)
      {
        if proc[c].que[i] != 0 {
          name := proc[c].que[i];
          proc[c] := proc[c].(que := Put(proc[c].que, i, 0));
          return;
        }
        i := i + 1;
      }
      name := 0;
    }

    /** copy_reg, and the sender's name in a3 as both callers put it there. */
    method CopyReg(src: nat, dst: nat)
      requires src < proc.Length && dst < proc.Length
      modifies proc
      ensures proc[..] == old(proc[..])[dst := old(proc[dst]).(regs := CopyRegs(old(proc[src].regs),
              old(proc[dst].regs), old(proc[src].name)))]
    {
      var r := proc[src].regs;
      proc[dst] := proc[dst].(regs := proc[dst].regs.(a0 := r.a0, a1 := r.a1, a2 := r.a2, a3 := r.a3, a4 := r.a4,
          a5 := r.a5));
      proc[dst] := proc[dst].(regs := proc[dst].regs.(a3 := proc[src].name));
    }

    method SetSlotState(i: nat, state: Status)
      requires i < proc.Length
      modifies proc
      ensures proc[..] == old(proc[..])[i := old(proc[i]).(state := state)]
    {
      proc[i] := proc[i].(state := state);
    }

    method SetWait(i: nat, w: Word)
      requires i < proc.Length
      modifies proc
      ensures proc[..] == old(proc[..])[i := old(proc[i]).(isWaitMsg := w)]
    {
      proc[i] := proc[i].(isWaitMsg := w);
    }

    /** send; false is a panic. */
    method Send() returns (ok: bool)
      requires 0 <= current < proc.Length
      modifies proc
      ensures Process.Send(old(Sys())) == if ok then Done(Sys()) else Panic
    {
      var name := proc[current].regs.a6;
      var dst := FindNameProcess(name);
      if !dst.At? { return false; }
      var d := dst.index;
      if proc[d].state == Sleeping {
        CopyReg(current, d);
        SetWait(d, 0);
        SetSlotState(current, Sleeping);
        SetSlotState(d, Runnable);
      } else {
        var added := AddQue(d, proc[current].name);
        if !added { return false; }
        SetWait(current, 1);
        SetSlotState(current, Sleeping);
      }
      ok := true;
    }

    /** recv; false is a panic. */
    method Recv() returns (ok: bool)
      requires 0 <= current < proc.Length
      modifies proc
      ensures Process.Recv(old(Sys())) == if ok then Done(Sys()) else Panic
    {
      ghost var que := proc[current].que;
      var name := ExtractQue(current);
      if name != 0 {
        var src := FindNameProcess(name);
        if !src.At? { return false; }
        CopyReg(src.index, current);
        SetSlotState(src.index, Runnable);
        SetWait(src.index, 0);
      } else {
        SetSlotState(current, Sleeping);
        SetWait(current, 1);
      }
      ok := true;
    }

    /** sleep_prc and wakeup. */
    method SetNamedState(name: Word, state: Status) returns (ok: bool)
      modifies proc
      ensures SetState(old(Sys()), name, state) == if ok then Done(Sys()) else Panic
    {
      var p := FindNameProcess(name);
      if !p.At? { return false; }
      SetSlotState(p.index, state);
      ok := true;
    }

    /** IPC_call. The buffer calls do their lookups here; their copying is in module IpcBuffers. */
    method Call(mapped: bool) returns (ok: bool)
      requires 0 <= current < proc.Length
      modifies proc
      ensures IpcCall(old(Sys()), mapped) == if ok then Done(Sys()) else Panic
    {
      hide Process.Send, Process.Recv, SetState, Find;
      var r := proc[current].regs;
      if r.a7 == 0 {
        ok := Send();
      } else if r.a7 == 1 {
        ok := Recv();
      } else if r.a7 == 2 {
        var d := FindNameProcess(r.a0);
        if d.Fault? { return false; }
        var s := FindNameProcess(r.a1);
        ok := !s.Fault?;
      } else if r.a7 == 3 {
        var s := FindNameProcess(r.a3);
        if s.Fault? { return false; }
        var d := FindNameProcess(r.a0);
        ok := !d.Fault? && s.At? && (mapped ==> d.At?);
      } else if r.a7 == 4 {
        ok := SetNamedState(r.a0, Sleeping);
      } else if r.a7 == 5 {
        ok := SetNamedState(r.a0, Runnable);
      } else {
        ok := false;
      }
    }

    /** sheduller. */
    method Scheduler()
      requires proc.Length > 0
      modifies this`next, this`idx
      ensures Sys() == Schedule(old(Sys()))
    {
      next := -1;
      ghost var idx0 := idx;
      var i := 0;
      while i < proc.Length
        invariant 0 <= i <= proc.Length && next == -1 && idx == idx0
        invariant Passed(proc[..], idx0, 0) == Passed(proc[..], idx0, i)
      {
        var id := (idx + i + 1) % proc.Length;
        assert id == Candidate(proc.Length, idx0, i);
        if proc[id].state == Runnable && proc[id].pid > 0 {
          next := id;
          idx := id;
          break;
        }
        i := i + 1;
      }
      if next == -1 {
        next := current;
      }
    }

    /** yield; false is the null dereference when there is nothing to switch to. */
    method YieldCpu() returns (ok: bool)
      requires proc.Length > 0 && -1 <= current < proc.Length
      modifies this, proc
      ensures Yield(old(Sys())) == if ok then Done(Sys()) else Panic
    {
      Scheduler();
      var prev := current;
      if prev == -1 {
        if next == -1 { return false; }
        current := next;
        SetSlotState(current, Running);
        return true;
      }
      if proc[current].isWaitMsg == 1 {
        current := next;
        SetSlotState(prev, Sleeping);
        SetSlotState(current, Running);
      } else {
        current := next;
        SetSlotState(prev, Runnable);
        SetSlotState(current, Running);
      }
      ok := true;
    }

    /** usertrap. */
    method UserTrap(e: Event) returns (ok: bool)
      requires 0 <= current < proc.Length
      modifies this, proc
      ensures Step(old(Sys()), e) == if ok then Done(Sys()) else Panic
    {
      hide Yield, IpcCall;
      proc[current] := proc[current].(regs := e.regs);
      assert Sys() == SaveRegs(old(Sys()), e.regs);
      match e
      case Tick(_) =>
        ok := YieldCpu();
      case Ecall(_, mapped) =>
        ok := Call(mapped);
        if ok && proc[current].state == Sleeping {
          ok := YieldCpu();
        }
    }
  }
}
