/** What holds in every run of the machine, whatever the processes do. */
module Runs {
  import opened Riscv
  import opened Process

  ghost predicate Distinct(names: seq<Word>) {
    (forall i :: 0 <= i < |names| ==> names[i] != 0) && (forall i, j :: 0 <= i < j < |names| ==> names[i] != names[j])
  }

  /** Slot i of a table whose first |names| slots are in use under these names. */
  predicate SlotOk(p: Slot, i: nat, names: seq<Word>, n: nat) {
    && |p.que| == n
    && (if i < |names| then p.ipc && p.name == names[i] && p.pid == i + 1 && p.state != Unused
        else !p.ipc && p.pid == 0 && p.state == Unused)
  }

  ghost predicate TableOk(proc: seq<Slot>, names: seq<Word>) {
    && Distinct(names) && |names| <= |proc|
    && (forall i: nat {:trigger proc[i]} :: i < |proc| ==> SlotOk(proc[i], i, names, |proc|))
  }

  /** The table is in order, a process runs, only the current one is in state RUN, and the scheduler's index is its. */
  ghost predicate Inv(s: System, names: seq<Word>) {
    && TableOk(s.proc, names) && s.idx == s.current
    && 0 <= s.current < |names| && (s.proc[s.current].state == Running || s.proc[s.current].state == Runnable)
    && (forall i: nat :: i < |s.proc| && s.proc[i].state == Running ==> i == s.current)
  }

  /** After the births and before the first switch. */
  ghost predicate Booted(s: System, names: seq<Word>) {
    && TableOk(s.proc, names) && s.current == -1 && s.idx == 0
    && (forall i: nat :: i < |names| ==>
          s.proc[i].state == Runnable && s.proc[i].isWaitMsg != 1
              && forall k :: 0 <= k < |s.proc| ==> s.proc[i].que[k] == 0)
  }

  /** A run: the states between traps, from the first switch on. */
  ghost predicate Run(states: seq<System>, events: seq<Event>, names: seq<Word>) {
    && |states| == |events| + 1
    && (exists b :: Booted(b, names) && |b.proc| > 0 && Yield(b) == Done(states[0]))
    && (forall k: nat {:trigger events[k]} :: k < |events| ==>
          0 <= states[k].current < |states[k].proc| && Step(states[k], events[k]) == Done(states[k + 1]))
  }

  // ---------------------------------------------------------------- lookups

  lemma {:induction false} FindFromRegistered(proc: seq<Slot>, names: seq<Word>, x: nat, i: nat)
    requires TableOk(proc, names) && i <= x < |names|
    ensures FindFrom(proc, names[x], i) == At(x)
    decreases x - i
  {
    if i < x {
      FindFromRegistered(proc, names, x, i + 1);
    }
  }

  /** A registered name is found before the search touches a slot without an ipc block; no other name is found at
      all. */
  lemma FindRegistered(proc: seq<Slot>, names: seq<Word>, name: Word)
    requires TableOk(proc, names)
    ensures forall x: nat :: x < |names| && names[x] == name ==> Find(proc, name) == At(x)
    ensures name !in names ==> Find(proc, name) == if |names| == |proc| then Nobody else Fault
  {
    forall x: nat | x < |names| && names[x] == name ensures Find(proc, name) == At(x) {
      FindFromRegistered(proc, names, x, 0);
    }
    if name !in names {
      FindFromUnregistered(proc, names, name, 0);
    }
  }

  lemma {:induction false} FindFromUnregistered(proc: seq<Slot>, names: seq<Word>, name: Word, i: nat)
    requires TableOk(proc, names) && i <= |names| && name !in names
    ensures FindFrom(proc, name, i) == if |names| == |proc| then Nobody else Fault
    decreases |names| - i
  {
    if i < |names| {
      FindFromUnregistered(proc, names, name, i + 1);
    }
  }

  // ---------------------------------------------------------------- the invariant

  /** Before yield and inside a call the current process may be in any used state. */
  ghost predicate Mid(s: System, names: seq<Word>) {
    && TableOk(s.proc, names) && s.idx == s.current && 0 <= s.current < |names|
    && (forall i: nat :: i < |s.proc| && s.proc[i].state == Running ==> i == s.current)
  }

  lemma YieldKeeps(s: System, names: seq<Word>)
    requires Mid(s, names)
    ensures Yield(s).Done? && Inv(Yield(s).sys, names)
  {
  }

  lemma SendKeeps(s: System, names: seq<Word>)
    requires Inv(s, names)
    ensures Send(s).Done? ==> Mid(Send(s).sys, names)
  {
  }

  lemma RecvKeeps(s: System, names: seq<Word>)
    requires Inv(s, names)
    ensures Recv(s).Done? ==> Mid(Recv(s).sys, names)
  {
  }

  lemma SetStateKeeps(s: System, names: seq<Word>, name: Word, state: Status)
    requires Inv(s, names) && (state == Sleeping || state == Runnable)
    ensures SetState(s, name, state).Done? ==> Mid(SetState(s, name, state).sys, names)
  {
  }

  lemma CallKeeps(s: System, names: seq<Word>, mapped: bool)
    requires Inv(s, names)
    ensures IpcCall(s, mapped).Done? ==> Mid(IpcCall(s, mapped).sys, names)
  {
    hide Send, Recv, SetState, Find;
    SendKeeps(s, names);
    RecvKeeps(s, names);
    SetStateKeeps(s, names, s.proc[s.current].regs.a0, Sleeping);
    SetStateKeeps(s, names, s.proc[s.current].regs.a0, Runnable);
  }

  /** Every trap keeps the invariant. */
  lemma StepKeeps(s: System, e: Event, names: seq<Word>)
    requires Inv(s, names)
    ensures Step(s, e).Done? ==> Inv(Step(s, e).sys, names)
  {
    var s0 := SaveRegs(s, e.regs);
    assert Inv(s0, names);
    hide IpcCall, Yield;
    match e
    case Tick(_) =>
      YieldKeeps(s0, names);
    case Ecall(_, mapped) =>
      CallKeeps(s0, names, mapped);
      var r := IpcCall(s0, mapped);
      if r.Done? && r.sys.proc[r.sys.current].state == Sleeping {
        YieldKeeps(r.sys, names);
      }
  }

  /** The first switch starts a process, if there is one. */
  lemma BootStarts(b: System, names: seq<Word>)
    requires Booted(b, names) && |b.proc| > 0
    ensures Yield(b).Done? <==> |names| > 0
    ensures Yield(b).Done? ==> Inv(Yield(b).sys, names)
  {
    if |names| > 0 {
      assert b.proc[0].state == Runnable;
      CandidateHits(|b.proc|, b.idx, 0);
    }
  }

  /** Every slot is a candidate. */
  lemma CandidateHits(n: nat, idx: nat, p: nat)
    requires idx < n && p < n
    ensures Distance(n, idx, p) == (if p > idx then p - idx - 1 else p + n - idx - 1) < n
    ensures Candidate(n, idx, Distance(n, idx, p)) == p
  {
    ModOnce(p + n - idx - 1, n);
    ModOnce(idx + Distance(n, idx, p) + 1, n);
  }

  lemma ModOnce(x: nat, n: nat)
    requires x < 2 * n
    ensures x % n == if x < n then x else x - n
  {
    if x < n {
      DivModOf(0, x, n);
    } else {
      DivModOf(1, x - n, n);
    }
  }

  /** How many slots the scheduler looks at before p. */
  function Distance(n: nat, idx: nat, p: nat): nat
    requires n > 0 && idx < n && p < n
  {
    (p + n - idx - 1) % n
  }

  lemma {:induction false} RunInv(states: seq<System>, events: seq<Event>, names: seq<Word>, k: nat)
    requires Run(states, events, names) && k < |states|
    ensures Inv(states[k], names) && |states[k].proc| == |states[0].proc|
  {
    if k == 0 {
      var b :| Booted(b, names) && |b.proc| > 0 && Yield(b) == Done(states[0]);
      BootStarts(b, names);
    } else {
      RunInv(states, events, names, k - 1);
      assert Step(states[k - 1], events[k - 1]) == Done(states[k]);
      StepKeeps(states[k - 1], events[k - 1], names);
      StepSize(states[k - 1], events[k - 1]);
    }
  }

  lemma StepSize(s: System, e: Event)
    requires 0 <= s.current < |s.proc|
    ensures Step(s, e).Done? ==> |Step(s, e).sys.proc| == |s.proc|
  {
  }

  // ---------------------------------------------------------------- bounded waiting

  /** Looking at a nearer slot first brings the scheduler that much closer to p. */
  lemma CandidateDistance(n: nat, idx: nat, p: nat, k: nat)
    requires idx < n && p < n && k < Distance(n, idx, p)
    ensures Distance(n, Candidate(n, idx, k), p) == Distance(n, idx, p) - k - 1
  {
    CandidateHits(n, idx, p);
    ModOnce(idx + k + 1, n);
    CandidateHits(n, Candidate(n, idx, k), p);
  }

  /** Each call of the scheduler picks an eligible p or comes strictly closer to it. */
  lemma ScheduleRank(s: System, p: nat)
    requires s.idx < |s.proc| && p < |s.proc| && Eligible(s.proc[p])
    ensures var s', n := Schedule(s), |s.proc|;
            && s'.idx < n && 0 <= s'.next < n && Eligible(s.proc[s'.next])
            && (s'.next == p || Distance(n, s'.idx, p) < Distance(n, s.idx, p))
  {
    hide Distance, Candidate;
    var n, d := |s.proc|, Distance(|s.proc|, s.idx, p);
    CandidateHits(n, s.idx, p);
    var k := Passed(s.proc, s.idx, 0);
    assert k <= d;
    if k < d {
      CandidateDistance(n, s.idx, p, k);
    }
  }

  /** Whether the trap ends in yield. */
  predicate Yields(s: System, e: Event)
    requires 0 <= s.current < |s.proc|
  {
    match e
    case Tick(_) => true
    case Ecall(_, mapped) =>
      var r := IpcCall(SaveRegs(s, e.regs), mapped);
      r.Done? && r.sys.proc[s.current].state == Sleeping
  }

  /** p waits: ready, but not running. */
  predicate Waits(s: System, p: nat) {
    p < |s.proc| && s.proc[p].state == Runnable && s.current != p
  }

  lemma CallKeepsWaiting(s: System, names: seq<Word>, mapped: bool, p: nat)
    requires Inv(s, names) && p < |names| && Waits(s, p) && IpcCall(s, mapped).Done?
    ensures var s' := IpcCall(s, mapped).sys;
            s'.proc[p].state == Runnable || (s'.proc[p].state == Sleeping && s'.proc[s.current].state != Sleeping)
  {
  }

  /** One trap over which p waits: if it yields, the scheduler has come closer to p. */
  lemma StepRank(s: System, e: Event, names: seq<Word>, p: nat)
    requires Inv(s, names) && p < |names| && Step(s, e).Done? && Waits(s, p) && Waits(Step(s, e).sys, p)
    ensures var s', n := Step(s, e).sys, |s.proc|;
            && s'.idx < n == |s'.proc|
            && Distance(n, s'.idx, p) + (if Yields(s, e) then 1 else 0) <= Distance(n, s.idx, p)
  {
    hide Distance, IpcCall, Schedule;
    var s0 := SaveRegs(s, e.regs);
    assert Inv(s0, names);
    StepKeeps(s, e, names);
    match e
    case Tick(_) =>
      ScheduleRank(s0, p);
    case Ecall(_, mapped) =>
      CallKeeps(s0, names, mapped);
      CallKeepsWaiting(s0, names, mapped, p);
      var s1 := IpcCall(s0, mapped).sys;
      if s1.proc[s1.current].state == Sleeping {
        ScheduleRank(s1, p);
      }
  }

  /** How many of the traps i .. j - 1 yield. */
  ghost function YieldCount(states: seq<System>, events: seq<Event>, names: seq<Word>, i: nat, j: nat): nat
    requires Run(states, events, names) && i <= j < |states|
  {
    if i == j then 0
    else
      YieldCount(states, events, names, i, j - 1) +
      (assert Step(states[j - 1], events[j - 1]) == Done(states[j]); if Yields(states[j - 1],
          events[j - 1]) then 1 else 0)
  }

  /** Bounded waiting: while a process waits, fewer than N traps yield, for every table size N. */
  lemma {:induction false} BoundedWaiting(states: seq<System>, events: seq<Event>, names: seq<Word>, p: nat, i: nat,
      j: nat)
    requires Run(states, events, names) && i <= j < |states| && p < |names|
    requires forall k :: i <= k <= j ==> Waits(states[k], p)
    ensures var n := |states[0].proc|;
            && n == |states[i].proc| == |states[j].proc| && states[i].idx < n && states[j].idx < n && p < n
            && YieldCount(states, events, names, i, j) + Distance(n, states[j].idx, p) <= Distance(n, states[i].idx,
               p) < n
  {
    hide Distance, Step, Yields;
    RunInv(states, events, names, i);
    CandidateHits(|states[i].proc|, states[i].idx, p);
    if i < j {
      BoundedWaiting(states, events, names, p, i, j - 1);
      RunInv(states, events, names, j - 1);
      assert Step(states[j - 1], events[j - 1]) == Done(states[j]);
      assert Waits(states[j - 1], p) && Waits(states[j], p);
      StepRank(states[j - 1], events[j - 1], names, p);
      StepSize(states[j - 1], events[j - 1]);
    }
  }

  // ---------------------------------------------------------------- no lost wakeup

  ghost predicate EmptyQueue(s: System, p: nat) {
    p < |s.proc| && forall k :: 0 <= k < |s.proc[p].que| ==> s.proc[p].que[k] == 0
  }

  lemma CallKeepsSleeper(s: System, names: seq<Word>, mapped: bool, p: nat)
    requires Inv(s, names) && p < |names| && s.proc[p].state == Sleeping && IpcCall(s, mapped).Done?
    ensures p != s.current && IpcCall(s, mapped).sys.proc[p].que == s.proc[p].que
  {
  }

  /** Nothing is queued to a sleeping process: its senders wake it instead. */
  lemma SleeperQueueFrozen(s: System, e: Event, names: seq<Word>, p: nat)
    requires Inv(s, names) && p < |names| && s.proc[p].state == Sleeping && Step(s, e).Done?
    ensures p != s.current && Step(s, e).sys.proc[p].que == s.proc[p].que
  {
    hide IpcCall, Schedule;
    var s0 := SaveRegs(s, e.regs);
    assert Inv(s0, names);
    if e.Ecall? {
      CallKeeps(s0, names, e.mapped);
      CallKeepsSleeper(s0, names, e.mapped, p);
    }
  }

  /** No lost wakeup: a process that went to sleep in recv has an empty queue for as long as it sleeps. */
  lemma {:induction false} NoLostWakeup(states: seq<System>, events: seq<Event>, names: seq<Word>, p: nat, i: nat,
      j: nat)
    requires Run(states, events, names) && i < j < |states| && p < |names|
    requires states[i].current == p && events[i].Ecall? && events[i].regs.a7 == 1
    requires forall k :: i < k <= j ==> p < |states[k].proc| && states[k].proc[p].state == Sleeping
    ensures EmptyQueue(states[j], p)
  {
    hide Step, Run, Inv, EmptyQueue;
    RunStep(states, events, names, i);
    if j == i + 1 {
      RecvSleepsEmpty(states[i], events[i], names);
    } else {
      NoLostWakeup(states, events, names, p, i, j - 1);
      RunStep(states, events, names, j - 1);
      SleeperQueueFrozen(states[j - 1], events[j - 1], names, p);
      SameQueueEmpty(states[j - 1], states[j], p);
    }
  }

  lemma SameQueueEmpty(s: System, s': System, p: nat)
    requires EmptyQueue(s, p) && p < |s'.proc| && s'.proc[p].que == s.proc[p].que
    ensures EmptyQueue(s', p)
  {
  }

  /** One step of a run. */
  lemma RunStep(states: seq<System>, events: seq<Event>, names: seq<Word>, k: nat)
    requires Run(states, events, names) && k + 1 < |states|
    ensures |states| == |events| + 1 && Inv(states[k], names) && Inv(states[k + 1], names)
    ensures 0 <= states[k].current < |states[k].proc| == |states[k + 1].proc| && |names| <= |states[k].proc|
    ensures Step(states[k], events[k]) == Done(states[k + 1])
  {
    RunInv(states, events, names, k);
    RunInv(states, events, names, k + 1);
    assert Step(states[k], events[k]) == Done(states[k + 1]);
  }

  /** recv leaves its caller asleep only if the caller's queue is empty. */
  lemma RecvSleepsEmpty(s: System, e: Event, names: seq<Word>)
    requires Inv(s, names) && e.Ecall? && e.regs.a7 == 1 && Step(s, e).Done?
    ensures Step(s, e).sys.proc[s.current].state == Sleeping ==> EmptyQueue(Step(s, e).sys, s.current)
  {
    hide Schedule;
    var s0 := SaveRegs(s, e.regs);
    assert Inv(s0, names);
    CallKeeps(s0, names, e.mapped);
  }

  /** The trap is a call that wakes p: a send to it, a wakeup of it, or a recv that takes its name out of the queue. */
  predicate Wakes(s: System, r: Regs, name: Word)
    requires 0 <= s.current < |s.proc|
  {
    var que := s.proc[s.current].que;
    var k := FirstNonZero(que, 0);
    || (r.a7 == 0 && r.a6 == name)
    || (r.a7 == 5 && r.a0 == name)
    || (r.a7 == 1 && k < |que| && que[k] == name)
  }

  /** A sleep ends exactly by one of these three calls. */
  lemma WhoWakes(s: System, e: Event, names: seq<Word>, p: nat)
    requires Inv(s, names) && p < |names| && s.proc[p].state == Sleeping && Step(s, e).Done?
    ensures Step(s, e).sys.proc[p].state != Sleeping <==> e.Ecall? && Wakes(s, e.regs, names[p])
  {
    hide IpcCall, Schedule, Wakes;
    var s0 := SaveRegs(s, e.regs);
    assert Inv(s0, names);
    SavedWakes(s, e.regs, names[p]);
    if e.Ecall? {
      CallKeeps(s0, names, e.mapped);
      CallWakes(s0, names, e.mapped, p);
      if IpcCall(s0, e.mapped).sys.proc[p].state == Sleeping {
        NotPicked(IpcCall(s0, e.mapped).sys, p);
      }
    } else {
      NotPicked(s0, p);
    }
  }

  lemma SavedWakes(s: System, r: Regs, name: Word)
    requires 0 <= s.current < |s.proc|
    ensures Wakes(SaveRegs(s, r), r, name) <==> Wakes(s, r, name)
  {
  }

  lemma CallWakes(s: System, names: seq<Word>, mapped: bool, p: nat)
    requires Inv(s, names) && p < |names| && s.proc[p].state == Sleeping && IpcCall(s, mapped).Done?
    ensures p != s.current
    ensures IpcCall(s, mapped).sys.proc[p].state != Sleeping <==> Wakes(s, s.proc[s.current].regs, names[p])
  {
    var r, que := s.proc[s.current].regs, s.proc[s.current].que;
    assert SlotOk(s.proc[p], p, names, |s.proc|);
    FindRegistered(s.proc, names, names[p]);
    if r.a7 == 1 {
      RecvWakes(s, names, p);
    }
  }

  lemma RecvWakes(s: System, names: seq<Word>, p: nat)
    requires Inv(s, names) && p < |names| && s.proc[p].state == Sleeping && Recv(s).Done?
    ensures var que, k := s.proc[s.current].que, FirstNonZero(s.proc[s.current].que, 0);
            Recv(s).sys.proc[p].state != Sleeping <==> k < |que| && que[k] == names[p]
  {
    var que := s.proc[s.current].que;
    var k := FirstNonZero(que, 0);
    if k < |que| {
      var t := s.proc[s.current := s.proc[s.current].(que := Put(que, k, 0))];
      assert TableOk(t, names);
      FindRegistered(t, names, names[p]);
    }
  }

  /** The scheduler does not pick a sleeper. */
  lemma NotPicked(s: System, p: nat)
    requires s.idx < |s.proc| && p < |s.proc| && s.proc[p].state == Sleeping && s.current != p
    ensures Schedule(s).next != p
  {
  }

  // ---------------------------------------------------------------- what a call does to the other processes

  /** The state of slot i has changed at most by being switched to. */
  predicate StateKept(s: System, t: System, i: nat)
    requires i < |s.proc| == |t.proc|
  {
    || t.proc[i].state == s.proc[i].state
    || (i == t.current && s.proc[i].state == Runnable && t.proc[i].state == Running)
  }

  /** Slot i has changed at most in its state, and that only by being switched to. */
  predicate Untouched(s: System, t: System, i: nat)
    requires i < |s.proc| == |t.proc|
  {
    t.proc[i] == s.proc[i].(state := t.proc[i].state) && StateKept(s, t, i)
  }

  /** A process other than the current one is ready. */
  ghost predicate AnotherReady(s: System, names: seq<Word>)
    requires |names| <= |s.proc|
  {
    exists x: nat :: x < |names| && x != s.current && s.proc[x].state == Runnable
  }

  /** The scheduler looks at the process it last picked last of all. */
  lemma PicksOther(s: System, x: nat)
    requires s.idx < |s.proc| && x < |s.proc| && x != s.idx && Eligible(s.proc[x])
    ensures 0 <= Schedule(s).next < |s.proc| && Schedule(s).next != s.idx
  {
    hide Distance, Candidate;
    var n := |s.proc|;
    CandidateHits(n, s.idx, x);
    var k := Passed(s.proc, s.idx, 0);
    assert k <= Distance(n, s.idx, x) < n - 1;
    CandidateNotSelf(n, s.idx, k);
  }

  lemma CandidateNotSelf(n: nat, idx: nat, k: nat)
    requires idx < n && k < n - 1
    ensures Candidate(n, idx, k) != idx
  {
    ModOnce(idx + k + 1, n);
  }

  /** yield leaves its caller asleep exactly if the caller's wait flag is set and another process is ready, whatever
      state the caller was in. */
  lemma YieldSleeps(s: System, names: seq<Word>)
    requires Mid(s, names)
    ensures Yield(s).Done? && |Yield(s).sys.proc| == |s.proc|
    ensures Yield(s).sys.proc[s.current].state == Sleeping <==>
              s.proc[s.current].isWaitMsg == 1 && AnotherReady(s, names)
    ensures forall i: nat :: i < |s.proc| && i != s.current ==> Untouched(s, Yield(s).sys, i)
  {
    hide Passed, Candidate;
    YieldKeeps(s, names);
    if x: nat :| x < |names| && x != s.current && s.proc[x].state == Runnable {
      assert SlotOk(s.proc[x], x, names, |s.proc|);
      PicksOther(s, x);
    }
  }

  /** A timer tick puts its process to sleep exactly if the wait flag is still set, from a recv that a wakeup ended, and
      another process is ready. */
  lemma TickSleeps(s: System, regs: Regs, names: seq<Word>)
    requires Inv(s, names)
    ensures var t := Step(s, Tick(regs));
            && t.Done? && |t.sys.proc| == |s.proc|
            && (t.sys.proc[s.current].state == Sleeping <==>
                  s.proc[s.current].isWaitMsg == 1 && AnotherReady(s, names))
  {
    hide Yield;
    var s0 := SaveRegs(s, regs);
    assert Inv(s0, names);
    SameReady(s, s0, names);
    YieldSleeps(s0, names);
  }

  /** A process that puts itself to sleep stays asleep exactly if its wait flag is set, which yield looks at, and
      another process is ready; otherwise it is ready again, or runs on, after the same trap. */
  lemma SelfSleep(s: System, e: Event, names: seq<Word>)
    requires Inv(s, names) && e.Ecall? && e.regs.a7 == 4 && e.regs.a0 == names[s.current]
    ensures Step(s, e).Done? && |Step(s, e).sys.proc| == |s.proc|
    ensures Step(s, e).sys.proc[s.current].state == Sleeping <==>
              s.proc[s.current].isWaitMsg == 1 && AnotherReady(s, names)
    ensures forall i: nat :: i < |s.proc| && i != s.current ==> Untouched(s, Step(s, e).sys, i)
  {
    hide Yield, Find;
    var s0 := SaveRegs(s, e.regs);
    assert Inv(s0, names);
    FindRegistered(s0.proc, names, names[s.current]);
    SetStateKeeps(s0, names, names[s.current], Sleeping);
    var s1 := SetState(s0, names[s.current], Sleeping).sys;
    assert forall i: nat :: i < |s.proc| && i != s.current ==> s1.proc[i] == s.proc[i];
    SameReady(s, s1, names);
    YieldSleeps(s1, names);
    assert Step(s, e) == Yield(s1);
    forall i: nat | i < |s.proc| && i != s.current ensures Untouched(s, Step(s, e).sys, i) {
      assert Untouched(s1, Yield(s1).sys, i);
    }
  }

  lemma SameReady(s: System, t: System, names: seq<Word>)
    requires |names| <= |s.proc| == |t.proc| && t.current == s.current
    requires forall x: nat :: x < |names| && x != s.current ==> t.proc[x].state == s.proc[x].state
    ensures AnotherReady(t, names) <==> AnotherReady(s, names)
  {
    if x: nat :| x < |names| && x != s.current && s.proc[x].state == Runnable {
      assert t.proc[x].state == Runnable;
    }
    if x: nat :| x < |names| && x != t.current && t.proc[x].state == Runnable {
      assert s.proc[x].state == Runnable;
    }
  }

  // ---------------------------------------------------------------- what a trap does to the queues

  lemma YieldFrame(s: System)
    requires 0 <= s.current < |s.proc| && Yield(s).Done?
    ensures |Yield(s).sys.proc| == |s.proc|
    ensures forall i: nat :: i < |s.proc| ==>
              Yield(s).sys.proc[i].que == s.proc[i].que && Yield(s).sys.proc[i].isWaitMsg == s.proc[i].isWaitMsg
  {
    hide Schedule;
  }

  /** The trap is a recv of q. */
  predicate IsRecv(s: System, e: Event, q: nat) {
    e.Ecall? && e.regs.a7 == 1 && s.current == q
  }

  /** The trap is a send to the process of that name. */
  predicate IsSend(e: Event, w: Word) {
    e.Ecall? && e.regs.a7 == 0 && e.regs.a6 == w
  }

  /** What a call does to q's queue: a recv of q empties its first used slot, a send to q may fill its first free
      slot. */
  lemma CallQueue(s: System, names: seq<Word>, mapped: bool, q: nat)
    requires Inv(s, names) && q < |names| && IpcCall(s, mapped).Done?
    ensures var r, que, t := s.proc[s.current].regs, s.proc[q].que, IpcCall(s, mapped).sys;
            && |t.proc| == |s.proc|
            && (r.a7 == 1 && s.current == q ==>
                  var l := FirstNonZero(que, 0);
                  t.proc[q].que == if l < |que| then Put(que, l, 0) else que)
            && (!(r.a7 == 1 && s.current == q) && !(r.a7 == 0 && r.a6 == names[q]) ==> t.proc[q].que == que)
            && (r.a7 == 0 && r.a6 == names[q] ==>
                  || t.proc[q].que == que
                  || (FirstZero(que, 0) < |que| && t.proc[q].que == Put(que, FirstZero(que, 0), names[s.current])))
  {
    var r := s.proc[s.current].regs;
    FindRegistered(s.proc, names, names[q]);
    assert SlotOk(s.proc[s.current], s.current, names, |s.proc|);
  }

  lemma StepQueue(s: System, e: Event, names: seq<Word>, q: nat)
    requires Inv(s, names) && q < |names| && Step(s, e).Done?
    ensures var que, t := s.proc[q].que, Step(s, e).sys;
            && |t.proc| == |s.proc|
            && (IsRecv(s, e, q) ==>
                  var l := FirstNonZero(que, 0);
                  t.proc[q].que == if l < |que| then Put(que, l, 0) else que)
            && (!IsRecv(s, e, q) && !IsSend(e, names[q]) ==> t.proc[q].que == que)
            && (IsSend(e, names[q]) ==>
                  || t.proc[q].que == que
                  || (FirstZero(que, 0) < |que| && t.proc[q].que == Put(que, FirstZero(que, 0), names[s.current])))
  {
    hide IpcCall, Yield;
    var s0 := SaveRegs(s, e.regs);
    assert Inv(s0, names);
    match e
    case Tick(_) =>
      YieldKeeps(s0, names);
      YieldFrame(s0);
    case Ecall(_, mapped) =>
      CallKeeps(s0, names, mapped);
      CallQueue(s0, names, mapped, q);
      var s1 := IpcCall(s0, mapped).sys;
      if s1.proc[s1.current].state == Sleeping {
        YieldKeeps(s1, names);
        YieldFrame(s1);
      }
  }
}
