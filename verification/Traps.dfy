/** What each trap does to every slot of the table: who changes, how, and that nobody else does. */
module Traps {
  import opened Riscv
  import opened Process
  import opened Runs

  // ---------------------------------------------------------------- the switch

  /** From s to t the processor has been switched: to another process if and only if one was ready, which it then was;
      the process switched to is in state RUN, the old one sleeps or is ready as its wait flag says, and nobody else
      has changed. */
  ghost predicate Switched(s: System, t: System, names: seq<Word>)
    requires |names| <= |s.proc| && 0 <= s.current < |s.proc|
  {
    var c, x := s.current, t.current;
    && |t.proc| == |s.proc| && 0 <= x < |names| && (x != c <==> AnotherReady(s, names))
    && t.proc[x] == s.proc[x].(state := Running)
    && (x != c ==>
          && s.proc[x].state == Runnable
          && t.proc[c] == s.proc[c].(state := if s.proc[c].isWaitMsg == 1 then Sleeping else Runnable))
    && (forall i: nat :: i < |s.proc| && i != c && i != x ==> t.proc[i] == s.proc[i])
  }

  lemma YieldSwitches(s: System, names: seq<Word>)
    requires Mid(s, names)
    ensures Yield(s).Done? && Switched(s, Yield(s).sys, names)
  {
    hide Passed, Candidate;
    YieldKeeps(s, names);
    if x: nat :| x < |names| && x != s.current && s.proc[x].state == Runnable {
      assert SlotOk(s.proc[x], x, names, |s.proc|);
      PicksOther(s, x);
    }
  }

  /** Among the ready processes the switch goes to the one that comes first after the scheduler's index. */
  lemma YieldPicksNext(s: System, names: seq<Word>, p: nat)
    requires Mid(s, names) && p < |names| && p != s.current && s.proc[p].state == Runnable
    ensures Yield(s).Done? && 0 <= Yield(s).sys.current < |s.proc| && s.idx < |s.proc|
    ensures Distance(|s.proc|, s.idx, Yield(s).sys.current) <= Distance(|s.proc|, s.idx, p)
  {
    hide Distance, Candidate;
    assert SlotOk(s.proc[p], p, names, |s.proc|);
    var n := |s.proc|;
    CandidateHits(n, s.idx, p);
    var k := Passed(s.proc, s.idx, 0);
    assert k <= Distance(n, s.idx, p);
    CandidateFar(n, s.idx, k);
  }

  lemma CandidateFar(n: nat, idx: nat, k: nat)
    requires idx < n && k < n
    ensures Distance(n, idx, Candidate(n, idx, k)) == k
  {
    ModOnce(idx + k + 1, n);
    CandidateHits(n, idx, Candidate(n, idx, k));
  }

  /** The scheduler's index starts at 0, so the first process to run is the second one born, if there are two. */
  lemma FirstSwitch(b: System, names: seq<Word>)
    requires Booted(b, names) && |b.proc| > 0 && |names| > 0
    ensures var r, x := Yield(b), if |names| > 1 then 1 else 0;
            && r.Done? && |r.sys.proc| == |b.proc| && r.sys.current == x
            && r.sys.proc == b.proc[x := b.proc[x].(state := Running)]
  {
    hide Candidate, Distance, Passed;
    var n, x := |b.proc|, if |names| > 1 then 1 else 0;
    assert SlotOk(b.proc[x], x, names, n);
    CandidateHits(n, 0, x);
    var k := Passed(b.proc, 0, 0);
    assert k <= Distance(n, 0, x);
    var y := Candidate(n, 0, k);
    assert SlotOk(b.proc[y], y, names, n);
    CandidateFar(n, 0, k);
    CandidateHits(n, 0, y);
  }

  // ---------------------------------------------------------------- traps that yield

  /** The trap has ended in a switch: its process runs on if and only if nobody else was ready, else it sleeps or is
      ready as its wait flag now says. */
  ghost predicate Paused(s: System, t: System, names: seq<Word>)
    requires |names| <= |s.proc| == |t.proc| && 0 <= s.current < |s.proc|
  {
    var c := s.current;
    && 0 <= t.current < |names| && (t.current != c <==> AnotherReady(s, names))
    && t.proc[c].state ==
         (if t.current == c then Running else if t.proc[c].isWaitMsg == 1 then Sleeping else Runnable)
  }

  ghost predicate OthersUntouched(s: System, t: System, but: set<int>)
    requires |s.proc| == |t.proc|
  {
    forall i: nat :: i < |s.proc| && i !in but ==> Untouched(s, t, i)
  }

  /** A call that keeps the states of all others, and then the switch. */
  lemma CallAndSwitch(s: System, u: System, t: System, names: seq<Word>)
    requires |names| <= |s.proc| == |u.proc| && u.current == s.current && 0 <= s.current < |s.proc|
    requires forall i: nat :: i < |s.proc| && i != s.current ==> u.proc[i].state == s.proc[i].state
    requires Switched(u, t, names)
    ensures |t.proc| == |s.proc| && Paused(s, t, names)
    ensures forall i: nat :: i < |s.proc| ==> t.proc[i] == u.proc[i].(state := t.proc[i].state)
    ensures forall i: nat :: i < |s.proc| && i != s.current ==> StateKept(s, t, i)
  {
    SameReady(s, u, names);
  }

  /** A timer tick saves the registers and switches. */
  lemma TickSwitches(s: System, regs: Regs, names: seq<Word>)
    requires Inv(s, names)
    ensures var r, c := Step(s, Tick(regs)), s.current;
            && r.Done? && |r.sys.proc| == |s.proc| && Paused(s, r.sys, names) && OthersUntouched(s, r.sys, {c})
            && r.sys.proc[c] == s.proc[c].(regs := regs, state := r.sys.proc[c].state)
  {
    hide Yield, AnotherReady;
    var s0 := SaveRegs(s, regs);
    assert Inv(s0, names);
    YieldSwitches(s0, names);
    CallAndSwitch(s, s0, Yield(s0).sys, names);
  }

  /** A send to a process that is awake, the caller itself included, puts the caller's name into the first free slot
      of its queue; the caller waits. */
  lemma QueuedSend(s: System, e: Event, names: seq<Word>, d: nat)
    requires Inv(s, names) && e.Ecall? && e.regs.a7 == 0 && d < |names| && e.regs.a6 == names[d]
    requires s.proc[d].state != Sleeping && Step(s, e).Done?
    ensures var t, c, k := Step(s, e).sys, s.current, FirstZero(s.proc[d].que, 0);
            && |t.proc| == |s.proc| && Paused(s, t, names) && OthersUntouched(s, t, {c, d})
            && k < |s.proc[d].que|
            && (d != c ==>
                  && t.proc[d] == s.proc[d].(que := s.proc[d].que[k := names[c]], state := t.proc[d].state)
                  && StateKept(s, t, d)
                  && t.proc[c] == s.proc[c].(regs := e.regs, isWaitMsg := 1, state := t.proc[c].state))
            && (d == c ==>
                  t.proc[c] == s.proc[c].(regs := e.regs, que := s.proc[c].que[k := names[c]], isWaitMsg := 1,
                                          state := t.proc[c].state))
  {
    hide Yield, AnotherReady;
    var s0 := SaveRegs(s, e.regs);
    assert Inv(s0, names);
    FindRegistered(s0.proc, names, names[d]);
    SendKeeps(s0, names);
    var u := Send(s0).sys;
    assert SlotOk(s.proc[s.current], s.current, names, |s.proc|);
    YieldSwitches(u, names);
    CallAndSwitch(s, u, Yield(u).sys, names);
  }

  /** A send to a sleeper hands the message over at once: the receiver wakes with a0-a2, a4, a5 as sent, the sender's
      name in a3 and its own a6, a7. The sender goes on, unless its own wait flag is still set from before. */
  lemma DirectSend(s: System, e: Event, names: seq<Word>, d: nat)
    requires Inv(s, names) && e.Ecall? && e.regs.a7 == 0 && d < |names| && e.regs.a6 == names[d]
    requires s.proc[d].state == Sleeping
    ensures Step(s, e).Done? && |Step(s, e).sys.proc| == |s.proc| && d != s.current
    ensures var t, r, o, c := Step(s, e).sys, e.regs, s.proc[d].regs, s.current;
            && t.current != c && OthersUntouched(s, t, {c, d})
            && t.proc[d] == s.proc[d].(regs := Regs(r.a0, r.a1, r.a2, names[c], r.a4, r.a5, o.a6, o.a7),
                                       isWaitMsg := 0, state := if t.current == d then Running else Runnable)
            && t.proc[c] == s.proc[c].(regs := r, state := if s.proc[c].isWaitMsg == 1 then Sleeping else Runnable)
  {
    hide Yield;
    var s0 := SaveRegs(s, e.regs);
    assert Inv(s0, names);
    FindRegistered(s0.proc, names, names[d]);
    SendKeeps(s0, names);
    var u := Send(s0).sys;
    assert SlotOk(s.proc[s.current], s.current, names, |s.proc|);
    assert d != s.current && u.proc[d].state == Runnable;
    YieldSwitches(u, names);
  }

  /** A recv on an empty queue waits. */
  lemma RecvBlocks(s: System, e: Event, names: seq<Word>)
    requires Inv(s, names) && e.Ecall? && e.regs.a7 == 1
    requires forall k :: 0 <= k < |s.proc[s.current].que| ==> s.proc[s.current].que[k] == 0
    ensures Step(s, e).Done?
    ensures var t, c := Step(s, e).sys, s.current;
            && |t.proc| == |s.proc| && Paused(s, t, names) && OthersUntouched(s, t, {c})
            && t.proc[c] == s.proc[c].(regs := e.regs, isWaitMsg := 1, state := t.proc[c].state)
  {
    hide Yield, AnotherReady;
    var s0 := SaveRegs(s, e.regs);
    assert Inv(s0, names);
    RecvKeeps(s0, names);
    var u := Recv(s0).sys;
    YieldSwitches(u, names);
    CallAndSwitch(s, u, Yield(u).sys, names);
  }

  // ---------------------------------------------------------------- calls after which the caller runs on

  /** No switch: the caller runs on. */
  predicate RunsOn(s: System, t: System) {
    |t.proc| == |s.proc| && t.current == s.current && t.next == s.next && t.idx == s.idx
  }

  ghost predicate OthersSame(s: System, t: System, but: set<int>)
    requires |s.proc| == |t.proc|
  {
    forall i: nat :: i < |s.proc| && i !in but ==> t.proc[i] == s.proc[i]
  }

  /** A recv with a sender queued takes the first one, clears its slot and gets its message; the sender is ready again
      and keeps its registers. A process may so receive from itself. */
  lemma RecvTakes(s: System, e: Event, names: seq<Word>, l: nat, x: nat)
    requires Inv(s, names) && e.Ecall? && e.regs.a7 == 1 && x < |names|
    requires l < |s.proc[s.current].que| && s.proc[s.current].que[l] == names[x]
    requires forall k :: 0 <= k < l ==> s.proc[s.current].que[k] == 0
    ensures Step(s, e).Done?
    ensures var t, c, r := Step(s, e).sys, s.current, e.regs;
            var que, o := s.proc[c].que[l := 0], if x == c then r else s.proc[x].regs;
            var got := Regs(o.a0, o.a1, o.a2, names[x], o.a4, o.a5, r.a6, r.a7);
            && RunsOn(s, t) && OthersSame(s, t, {c, x})
            && (x != c ==>
                  && t.proc[c] == s.proc[c].(que := que, regs := got)
                  && t.proc[x] == s.proc[x].(state := Runnable, isWaitMsg := 0))
            && (x == c ==> t.proc[c] == s.proc[c].(que := que, regs := got, state := Runnable, isWaitMsg := 0))
  {
    var s0 := SaveRegs(s, e.regs);
    assert Inv(s0, names);
    var c, que := s.current, s.proc[s.current].que;
    assert FirstNonZero(que, 0) == l;
    var p := s0.proc[c := s0.proc[c].(que := Put(que, l, 0))];
    assert TableOk(p, names);
    FindRegistered(p, names, names[x]);
    assert SlotOk(s.proc[x], x, names, |s.proc|);
  }

  /** sleep_prc on another process puts that process to sleep, and does nothing else. */
  lemma SleepOther(s: System, e: Event, names: seq<Word>, d: nat)
    requires Inv(s, names) && e.Ecall? && e.regs.a7 == 4 && d < |names| && e.regs.a0 == names[d] && d != s.current
    ensures Step(s, e).Done?
    ensures var t, c := Step(s, e).sys, s.current;
            && RunsOn(s, t) && OthersSame(s, t, {c, d})
            && t.proc[d] == s.proc[d].(state := Sleeping) && t.proc[c] == s.proc[c].(regs := e.regs)
  {
    var s0 := SaveRegs(s, e.regs);
    assert Inv(s0, names);
    FindRegistered(s0.proc, names, names[d]);
  }

  /** wakeup makes the named process ready, whatever it was doing, and does nothing else; its wait flag stays. */
  lemma WakeUp(s: System, e: Event, names: seq<Word>, d: nat)
    requires Inv(s, names) && e.Ecall? && e.regs.a7 == 5 && d < |names| && e.regs.a0 == names[d]
    ensures Step(s, e).Done?
    ensures var t, c := Step(s, e).sys, s.current;
            && RunsOn(s, t) && OthersSame(s, t, {c, d})
            && (d != c ==> t.proc[d] == s.proc[d].(state := Runnable) && t.proc[c] == s.proc[c].(regs := e.regs))
            && (d == c ==> t.proc[c] == s.proc[c].(regs := e.regs, state := Runnable))
  {
    var s0 := SaveRegs(s, e.regs);
    assert Inv(s0, names);
    FindRegistered(s0.proc, names, names[d]);
  }

  /** The buffer calls change no slot. */
  lemma BufferCall(s: System, e: Event, names: seq<Word>)
    requires Inv(s, names) && e.Ecall? && (e.regs.a7 == 2 || e.regs.a7 == 3) && Step(s, e).Done?
    ensures var t, c := Step(s, e).sys, s.current;
            RunsOn(s, t) && OthersSame(s, t, {c}) && t.proc[c] == s.proc[c].(regs := e.regs)
  {
    hide Find;
    assert Inv(SaveRegs(s, e.regs), names);
  }

  // ---------------------------------------------------------------- registers

  /** The trap is a send to slot i while it sleeps: the only way to write another process's registers. */
  predicate SentDirectly(s: System, e: Event, names: seq<Word>, i: nat) {
    i < |names| && i < |s.proc| && IsSend(e, names[i]) && s.proc[i].state == Sleeping
  }

  lemma CallRegs(s: System, names: seq<Word>, mapped: bool, i: nat)
    requires Inv(s, names) && IpcCall(s, mapped).Done? && i < |s.proc| && i != s.current
    ensures var r, t := s.proc[s.current].regs, IpcCall(s, mapped).sys;
            && |t.proc| == |s.proc|
            && (t.proc[i].regs == s.proc[i].regs
                || (i < |names| && r.a7 == 0 && r.a6 == names[i] && s.proc[i].state == Sleeping))
  {
    FindRegistered(s.proc, names, s.proc[s.current].regs.a6);
    assert SlotOk(s.proc[i], i, names, |s.proc|);
  }

  lemma YieldRegs(s: System, names: seq<Word>, i: nat)
    requires Mid(s, names) && i < |s.proc|
    ensures Yield(s).Done? && |Yield(s).sys.proc| == |s.proc|
    ensures Yield(s).sys.proc[i] == s.proc[i].(state := Yield(s).sys.proc[i].state)
  {
    hide Yield, AnotherReady;
    YieldSwitches(s, names);
  }

  /** No trap changes the registers of another process, but for a send to it while it sleeps. */
  lemma OthersRegisters(s: System, e: Event, names: seq<Word>, i: nat)
    requires Inv(s, names) && Step(s, e).Done? && i < |s.proc| && i != s.current
    ensures |Step(s, e).sys.proc| == |s.proc|
    ensures Step(s, e).sys.proc[i].regs == s.proc[i].regs || SentDirectly(s, e, names, i)
  {
    hide IpcCall, Yield;
    var s0 := SaveRegs(s, e.regs);
    assert Inv(s0, names);
    match e
    case Tick(_) =>
      YieldRegs(s0, names, i);
    case Ecall(_, mapped) =>
      CallKeeps(s0, names, mapped);
      CallRegs(s0, names, mapped, i);
      var s1 := IpcCall(s0, mapped).sys;
      if s1.proc[s1.current].state == Sleeping {
        YieldRegs(s1, names, i);
      }
  }

  /** In every run: while a process is not running, its registers change by such a send only. */
  lemma {:induction false} RegistersKept(states: seq<System>, events: seq<Event>, names: seq<Word>, p: nat, i: nat,
      j: nat)
    requires Run(states, events, names) && i <= j < |states| && p < |names| && |states| == |events| + 1
    requires forall k :: i <= k < j ==> states[k].current != p && !SentDirectly(states[k], events[k], names, p)
    ensures p < |states[i].proc| == |states[j].proc| && states[j].proc[p].regs == states[i].proc[p].regs
  {
    hide Step, SentDirectly, Run;
    if i < j {
      RegistersKept(states, events, names, p, i, j - 1);
      RunStep(states, events, names, j - 1);
      OthersRegisters(states[j - 1], events[j - 1], names, p);
    } else {
      RunSlots(states, events, names, i);
    }
  }

  lemma RunSlots(states: seq<System>, events: seq<Event>, names: seq<Word>, i: nat)
    requires Run(states, events, names) && i < |states|
    ensures Inv(states[i], names) && |names| <= |states[i].proc|
  {
    RunInv(states, events, names, i);
  }

  // ---------------------------------------------------------------- preemption

  /** The trap is a sleep_prc of the process of that name. */
  predicate PutsToSleep(e: Event, w: Word) {
    e.Ecall? && e.regs.a7 == 4 && e.regs.a0 == w
  }

  lemma CallReady(s: System, names: seq<Word>, mapped: bool, p: nat)
    requires Inv(s, names) && IpcCall(s, mapped).Done? && p < |names| && p != s.current
    requires s.proc[p].state == Runnable
    ensures var r, t := s.proc[s.current].regs, IpcCall(s, mapped).sys;
            && |t.proc| == |s.proc| && t.proc[p].regs == s.proc[p].regs
            && t.proc[p].state == (if r.a7 == 4 && r.a0 == names[p] then Sleeping else Runnable)
            && (r.a7 == 4 && r.a0 == names[p] ==> t.proc[s.current].state != Sleeping)
  {
    FindRegistered(s.proc, names, s.proc[s.current].regs.a0);
    FindRegistered(s.proc, names, s.proc[s.current].regs.a6);
  }

  /** A ready process stays ready, or is switched to, with its registers, exactly if nobody puts it to sleep. */
  lemma ReadyKept(s: System, e: Event, names: seq<Word>, p: nat)
    requires Inv(s, names) && Step(s, e).Done? && p < |names| && p != s.current && s.proc[p].state == Runnable
    ensures var t := Step(s, e).sys;
            && |t.proc| == |s.proc| && t.proc[p].regs == s.proc[p].regs
            && t.proc[p].state == (if PutsToSleep(e, names[p]) then Sleeping
                                   else if t.current == p then Running else Runnable)
  {
    hide IpcCall, Yield, AnotherReady;
    var s0 := SaveRegs(s, e.regs);
    assert Inv(s0, names);
    match e
    case Tick(_) =>
      YieldSwitches(s0, names);
    case Ecall(_, mapped) =>
      CallKeeps(s0, names, mapped);
      CallReady(s0, names, mapped, p);
      var s1 := IpcCall(s0, mapped).sys;
      if s1.proc[s1.current].state == Sleeping {
        YieldSwitches(s1, names);
      }
  }

  /** Preemption is transparent, in every run: a process that a tick interrupts, with its wait flag clear, stays ready
      and finds its registers as they were when it runs again, unless somebody puts it to sleep meanwhile. */
  lemma {:induction false} PreemptionTransparent(states: seq<System>, events: seq<Event>, names: seq<Word>, p: nat,
      i: nat, j: nat)
    requires Run(states, events, names) && i < j < |states| && p < |names| && |states| == |events| + 1
    requires states[i].current == p && events[i].Tick? && p < |states[i].proc| && states[i].proc[p].isWaitMsg != 1
    requires forall k :: i < k < j ==> states[k].current != p && !PutsToSleep(events[k], names[p])
    ensures p < |states[j].proc| && states[j].proc[p].regs == events[i].regs
    ensures states[j].proc[p].state == if states[j].current == p then Running else Runnable
    decreases j
  {
    hide Step, PutsToSleep, Run, Paused, OthersUntouched;
    RunStep(states, events, names, j - 1);
    if j == i + 1 {
      TickSwitches(states[i], events[i].regs, names);
      PausedCaller(states[i], states[j], names);
    } else {
      PreemptionTransparent(states, events, names, p, i, j - 1);
      ReadyKept(states[j - 1], events[j - 1], names, p);
    }
  }

  lemma PausedCaller(s: System, t: System, names: seq<Word>)
    requires |names| <= |s.proc| == |t.proc| && 0 <= s.current < |s.proc| && Paused(s, t, names)
    ensures t.proc[s.current].state ==
            if t.current == s.current then Running
            else if t.proc[s.current].isWaitMsg == 1 then Sleeping else Runnable
  {
  }

  // ---------------------------------------------------------------- which traps yield

  lemma CallSleeps(s: System, names: seq<Word>, mapped: bool)
    requires Inv(s, names) && IpcCall(s, mapped).Done?
    ensures var r, c, t := s.proc[s.current].regs, s.current, IpcCall(s, mapped).sys;
            |t.proc| == |s.proc| &&
            (t.proc[c].state == Sleeping <==>
               || r.a7 == 0
               || (r.a7 == 1 && forall k :: 0 <= k < |s.proc[c].que| ==> s.proc[c].que[k] == 0)
               || (r.a7 == 4 && r.a0 == names[c]))
  {
    var c := s.current;
    assert SlotOk(s.proc[c], c, names, |s.proc|);
    FindRegistered(s.proc, names, s.proc[c].regs.a0);
    FindRegistered(s.proc, names, s.proc[c].regs.a6);
  }

  /** The traps that end in yield: ticks, all sends, recvs on an empty queue, and sleep_prc of the caller itself. */
  lemma WhoYields(s: System, e: Event, names: seq<Word>)
    requires Inv(s, names) && Step(s, e).Done?
    ensures Yields(s, e) <==>
            || e.Tick?
            || e.regs.a7 == 0
            || (e.regs.a7 == 1 && forall k :: 0 <= k < |s.proc[s.current].que| ==> s.proc[s.current].que[k] == 0)
            || (e.regs.a7 == 4 && e.regs.a0 == names[s.current])
    ensures Step(s, e).sys.current != s.current ==> Yields(s, e)
  {
    hide IpcCall, Yield;
    if e.Ecall? {
      var s0 := SaveRegs(s, e.regs);
      assert Inv(s0, names);
      CallSleeps(s0, names, e.mapped);
    }
  }
}
