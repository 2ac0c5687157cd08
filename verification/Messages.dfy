/** Messages on their way: what exactly keeps, delivers or destroys a message that waits in a queue, in every run. */
module Messages {
  import opened Riscv
  import opened Process
  import opened Runs
  import opened Discipline

  /** p's message to q lies in slot k of q's queue: p is blocked and its registers are what they were. */
  predicate Pending(s: System, names: seq<Word>, p: nat, q: nat, k: nat, regs: Regs)
    requires p < |names| && p < |s.proc|
  {
    Holds(s, q, k, names[p]) && s.proc[p].isWaitMsg == 1 && s.proc[p].state == Sleeping && s.proc[p].regs == regs
  }

  /** The receiver q has just taken p's message from slot k: a0-a2, a4, a5 of p, p's name in a3, its own a6 and a7; p
      can run, with its registers as they were. */
  ghost predicate Delivered(s: System, e: Event, s': System, names: seq<Word>, p: nat, q: nat, k: nat, regs: Regs)
    requires p < |names| && p < |s'.proc| && q < |s'.proc|
  {
    && s.current == q && e.Ecall? && e.regs.a7 == 1
    && s'.proc[q].regs == Regs(regs.a0, regs.a1, regs.a2, names[p], regs.a4, regs.a5, e.regs.a6, e.regs.a7)
    && s'.proc[p].state == Runnable && s'.proc[p].isWaitMsg == 0 && s'.proc[p].regs == regs
    && !Holds(s', q, k, names[p])
  }

  /** p's message, sent with these registers, lies in slot k of q's queue. */
  ghost predicate Waiting(s: System, names: seq<Word>, p: nat, q: nat, k: nat, regs: Regs)
    requires p < |names|
  {
    p < |s.proc| && Pending(s, names, p, q, k, regs)
  }

  /** p's name is in slot k of q's queue and in no other slot of any queue. */
  ghost predicate QueuedOnlyAt(s: System, names: seq<Word>, p: nat, q: nat, k: nat)
    requires p < |names|
  {
    Holds(s, q, k, names[p]) &&
    forall u: nat, l: nat {:trigger Holds(s, u, l, names[p])} ::
      u < |names| && Holds(s, u, l, names[p]) ==> u == q && l == k
  }

  // ---------------------------------------------------------------- what loses a message

  /** A send to the process of that name, or a wakeup of it. */
  predicate AimedAt(r: Regs, w: Word) {
    (r.a7 == 0 && r.a6 == w) || (r.a7 == 5 && r.a0 == w)
  }

  predicate Aimed(e: Event, w: Word) {
    e.Ecall? && AimedAt(e.regs, w)
  }

  /** A recv of the current process would take that name, but not from slot k of q's queue. */
  predicate TakesElsewhere(s: System, w: Word, q: nat, k: nat)
    requires 0 <= s.current < |s.proc|
  {
    var que := s.proc[s.current].que;
    var l := FirstNonZero(que, 0);
    l < |que| && que[l] == w && (s.current, l) != (q, k)
  }

  /** The trap is a recv that takes the sender's name from another slot than its message's: one it is still in from
      before. */
  predicate Diverts(s: System, e: Event, w: Word, q: nat, k: nat)
    requires 0 <= s.current < |s.proc|
  {
    e.Ecall? && e.regs.a7 == 1 && TakesElsewhere(s, w, q, k)
  }

  /** What a caller can look at before the trap to see that the message will be lost. */
  predicate Loses(s: System, e: Event, w: Word, q: nat, k: nat)
    requires 0 <= s.current < |s.proc|
  {
    Aimed(e, w) || Diverts(s, e, w, q, k)
  }

  // ---------------------------------------------------------------- one trap

  /** The current call has taken p's message. */
  ghost predicate Taken(s: System, t: System, names: seq<Word>, p: nat, q: nat, k: nat, regs: Regs)
    requires p < |names| && p < |t.proc| && q < |t.proc| && 0 <= s.current < |s.proc|
  {
    var r := s.proc[s.current].regs;
    && s.current == q && r.a7 == 1
    && t.proc[q].regs == Regs(regs.a0, regs.a1, regs.a2, names[p], regs.a4, regs.a5, r.a6, r.a7)
    && t.proc[p].state == Runnable && t.proc[p].isWaitMsg == 0 && t.proc[p].regs == regs && t.proc[q].state != Sleeping
    && !Holds(t, q, k, names[p])
  }

  /** The current call has ended p's wait without taking its message from its slot. */
  predicate Lost(s: System, t: System, names: seq<Word>, p: nat, q: nat, k: nat)
    requires p < |names| && p < |t.proc| && 0 <= s.current < |s.proc| == |t.proc|
  {
    && t.proc[p].state != Sleeping
    && (s.proc[s.current].regs.a7 == 1 ==>
          t.proc[s.current].state != Sleeping && (s.current != q || Holds(t, q, k, names[p])))
  }

  lemma SendMessage(s: System, names: seq<Word>, p: nat, q: nat, k: nat)
    requires Runs.Inv(s, names) && p < |names| && q < |names| && Waiting(s, names, p, q, k, s.proc[p].regs)
    requires s.proc[s.current].regs.a7 == 0 && s.proc[s.current].regs.a6 != names[p] && Send(s).Done?
    ensures Waiting(Send(s).sys, names, p, q, k, s.proc[p].regs)
  {
    var r := s.proc[s.current].regs;
    FindRegistered(s.proc, names, r.a6);
    var d := Find(s.proc, r.a6).index;
    assert r.a6 in names;
    assert SlotOk(s.proc[s.current], s.current, names, |s.proc|) && SlotOk(s.proc[d], d, names, |s.proc|);
  }

  lemma RecvMessage(s: System, names: seq<Word>, p: nat, q: nat, k: nat)
    requires Runs.Inv(s, names) && p < |names| && q < |names| && Waiting(s, names, p, q, k, s.proc[p].regs)
    requires s.proc[s.current].regs.a7 == 1 && Recv(s).Done?
    ensures var t := Recv(s).sys;
            if TakesElsewhere(s, names[p], q, k) then Lost(s, t, names, p, q, k)
            else Waiting(t, names, p, q, k, s.proc[p].regs) || Taken(s, t, names, p, q, k, s.proc[p].regs)
  {
    var cur, que := s.current, s.proc[s.current].que;
    var l := FirstNonZero(que, 0);
    assert SlotOk(s.proc[cur], cur, names, |s.proc|) && SlotOk(s.proc[p], p, names, |s.proc|);
    if l < |que| {
      var u := s.proc[cur := s.proc[cur].(que := Put(que, l, 0))];
      assert TableOk(u, names);
      FindRegistered(u, names, que[l]);
    }
  }

  lemma SetStateMessage(s: System, names: seq<Word>, p: nat, q: nat, k: nat, name: Word, state: Status)
    requires Runs.Inv(s, names) && p < |names| && q < |names| && Waiting(s, names, p, q, k, s.proc[p].regs)
    requires (state == Sleeping || name != names[p]) && SetState(s, name, state).Done?
    ensures Waiting(SetState(s, name, state).sys, names, p, q, k, s.proc[p].regs)
  {
    FindRegistered(s.proc, names, name);
  }

  /** A send to a sleeping p, or a wakeup of it, ends its wait. */
  lemma AimedCall(s: System, names: seq<Word>, mapped: bool, p: nat, q: nat, k: nat)
    requires Runs.Inv(s, names) && p < |names| && s.proc[p].state == Sleeping && IpcCall(s, mapped).Done?
    requires AimedAt(s.proc[s.current].regs, names[p])
    ensures Lost(s, IpcCall(s, mapped).sys, names, p, q, k)
  {
    FindRegistered(s.proc, names, names[p]);
  }

  /** Over one call. */
  lemma CallMessage(s: System, names: seq<Word>, mapped: bool, p: nat, q: nat, k: nat)
    requires Runs.Inv(s, names) && p < |names| && q < |names| && Waiting(s, names, p, q, k, s.proc[p].regs)
    requires IpcCall(s, mapped).Done?
    ensures var t, r := IpcCall(s, mapped).sys, s.proc[s.current].regs;
            if AimedAt(r, names[p]) || (r.a7 == 1 && TakesElsewhere(s, names[p], q, k)) then Lost(s, t, names, p, q, k)
            else Waiting(t, names, p, q, k, s.proc[p].regs) || Taken(s, t, names, p, q, k, s.proc[p].regs)
  {
    hide Send, Recv, SetState, Waiting, Taken, Lost, TakesElsewhere;
    var r := s.proc[s.current].regs;
    WaiterSleeps(s, names, p, q, k, s.proc[p].regs);
    if AimedAt(r, names[p]) {
      AimedCall(s, names, mapped, p, q, k);
    } else if r.a7 == 0 {
      SendMessage(s, names, p, q, k);
    } else if r.a7 == 1 {
      RecvMessage(s, names, p, q, k);
    } else if r.a7 == 4 {
      SetStateMessage(s, names, p, q, k, r.a0, Sleeping);
    } else if r.a7 == 5 {
      SetStateMessage(s, names, p, q, k, r.a0, Runnable);
    }
  }

  /** yield leaves a sleeper that is not the current process alone. */
  lemma YieldMessage(s: System, names: seq<Word>, p: nat, q: nat, k: nat, regs: Regs)
    requires Mid(s, names) && p < |names| && p != s.current && Waiting(s, names, p, q, k, regs)
    ensures Yield(s).Done? && Waiting(Yield(s).sys, names, p, q, k, regs)
  {
    hide Schedule;
    YieldKeeps(s, names);
    NotPicked(s, p);
  }

  /** yield puts no process to sleep but its caller. */
  lemma YieldKeepsAwake(s: System, names: seq<Word>, p: nat)
    requires Mid(s, names) && p < |names| && p != s.current && s.proc[p].state != Sleeping
    ensures Yield(s).Done? && p < |Yield(s).sys.proc| && Yield(s).sys.proc[p].state != Sleeping
  {
    hide Schedule;
    YieldKeeps(s, names);
  }

  /** Saving the registers of another process. */
  lemma SavedMessage(s: System, r: Regs, names: seq<Word>, p: nat, q: nat, k: nat, regs: Regs)
    requires Runs.Inv(s, names) && p < |names| && p != s.current && Waiting(s, names, p, q, k, regs)
    ensures var s0 := SaveRegs(s, r);
            && Runs.Inv(s0, names) && Waiting(s0, names, p, q, k, regs) && s0.proc[s.current].regs == r
            && s0.current == s.current && |s0.proc| == |s.proc|
            && (TakesElsewhere(s0, names[p], q, k) <==> TakesElsewhere(s, names[p], q, k))
  {
  }

  lemma WaiterSleeps(s: System, names: seq<Word>, p: nat, q: nat, k: nat, regs: Regs)
    requires Runs.Inv(s, names) && p < |names| && Waiting(s, names, p, q, k, regs)
    ensures p != s.current && s.proc[p].state == Sleeping && s.proc[p].regs == regs
  {
  }

  /** The fate of a message over one trap, in any state of any run: it waits on or is delivered exactly if the trap is
      not a send to its sender, a wakeup of it, or a recv that takes its name from elsewhere. */
  lemma StepMessage(s: System, e: Event, names: seq<Word>, p: nat, q: nat, k: nat, regs: Regs)
    requires Runs.Inv(s, names) && Step(s, e).Done? && p < |names| && q < |names| && Waiting(s, names, p, q, k, regs)
    ensures var t := Step(s, e).sys;
            && |names| <= |t.proc|
            && (Waiting(t, names, p, q, k, regs) || Delivered(s, e, t, names, p, q, k, regs) <==>
                  !Loses(s, e, names[p], q, k))
  {
    hide IpcCall, Yield, Waiting, TakesElsewhere;
    WaiterSleeps(s, names, p, q, k, regs);
    var s0 := SaveRegs(s, e.regs);
    SavedMessage(s, e.regs, names, p, q, k, regs);
    StepKeeps(s, e, names);
    match e
    case Tick(_) =>
      YieldMessage(s0, names, p, q, k, regs);
    case Ecall(_, mapped) =>
      CallKeeps(s0, names, mapped);
      CallMessage(s0, names, mapped, p, q, k);
      var s1 := IpcCall(s0, mapped).sys;
      AwakeNotWaiting(s1, names, p, q, k, regs);
      if s1.proc[s1.current].state == Sleeping {
        if Waiting(s1, names, p, q, k, regs) {
          YieldMessage(s1, names, p, q, k, regs);
        } else {
          YieldKeepsAwake(s1, names, p);
        }
      }
      AwakeNotWaiting(Step(s, e).sys, names, p, q, k, regs);
  }

  lemma AwakeNotWaiting(s: System, names: seq<Word>, p: nat, q: nat, k: nat, regs: Regs)
    requires p < |names| && p < |s.proc|
    ensures s.proc[p].state != Sleeping ==> !Waiting(s, names, p, q, k, regs)
  {
  }

  // ---------------------------------------------------------------- a sender queued once

  /** The message of a sender that is queued nowhere else is not diverted. */
  lemma SoleNotDiverted(s: System, e: Event, names: seq<Word>, p: nat, q: nat, k: nat)
    requires Runs.Inv(s, names) && p < |names| && QueuedOnlyAt(s, names, p, q, k)
    ensures !Diverts(s, e, names[p], q, k)
  {
    var l := FirstNonZero(s.proc[s.current].que, 0);
    assert l < |s.proc[s.current].que| && s.proc[s.current].que[l] == names[p] ==> Holds(s, s.current, l, names[p]);
  }

  /** Only p itself can have its name put into a queue. */
  lemma StepSole(s: System, e: Event, names: seq<Word>, p: nat, q: nat, k: nat)
    requires Runs.Inv(s, names) && Step(s, e).Done? && p < |names| && p != s.current
    requires QueuedOnlyAt(s, names, p, q, k) && Holds(Step(s, e).sys, q, k, names[p])
    ensures QueuedOnlyAt(Step(s, e).sys, names, p, q, k)
  {
    hide Step;
    var t := Step(s, e).sys;
    assert SlotOk(s.proc[s.current], s.current, names, |s.proc|) && SlotOk(s.proc[p], p, names, |s.proc|);
    forall u: nat, l: nat | u < |names| && Holds(t, u, l, names[p]) ensures u == q && l == k {
      StepQueue(s, e, names, u);
      assert Holds(s, u, l, names[p]);
    }
  }

  // ---------------------------------------------------------------- how it starts

  /** A send to a process that is awake leaves its message pending exactly if another process is ready, and its sender
      queued only there exactly if it was queued nowhere before. */
  lemma SendStarts(s: System, e: Event, names: seq<Word>, d: nat)
    requires Runs.Inv(s, names) && e.Ecall? && e.regs.a7 == 0 && d < |names| && e.regs.a6 == names[d]
    requires s.proc[d].state != Sleeping && Step(s, e).Done?
    ensures var t, p, k := Step(s, e).sys, s.current, FirstZero(s.proc[d].que, 0);
            && |t.proc| == |s.proc|
            && (Pending(t, names, p, d, k, e.regs) <==> AnotherReady(s, names))
            && (QueuedOnlyAt(t, names, p, d, k) <==> NotQueued(s, names[p], names))
  {
    hide Yield, AnotherReady;
    var s0 := SaveRegs(s, e.regs);
    assert Runs.Inv(s0, names);
    FindRegistered(s0.proc, names, names[d]);
    CallKeeps(s0, names, e.mapped);
    var s1 := Send(s0).sys;
    assert IpcCall(s0, e.mapped) == Done(s1);
    SameReady(s, s1, names);
    YieldSleeps(s1, names);
    YieldFrame(s1);
    SlotKept(s1, names);
    assert SlotOk(s.proc[s.current], s.current, names, |s.proc|) && SlotOk(s.proc[d], d, names, |s.proc|);
    QueuedStart(s, Step(s, e).sys, names, s.current, d);
  }

  /** yield keeps everything of the current process but its state. */
  lemma SlotKept(s: System, names: seq<Word>)
    requires Mid(s, names)
    ensures Yield(s).Done? && |Yield(s).sys.proc| == |s.proc|
    ensures Yield(s).sys.proc[s.current].regs == s.proc[s.current].regs
  {
    hide Schedule;
    YieldKeeps(s, names);
  }

  /** One name added to one queue. */
  lemma QueuedStart(s: System, t: System, names: seq<Word>, p: nat, d: nat)
    requires p < |names| <= |s.proc| == |t.proc| && d < |names| && names[p] != 0
    requires FirstZero(s.proc[d].que, 0) < |s.proc[d].que|
    requires t.proc[d].que == Put(s.proc[d].que, FirstZero(s.proc[d].que, 0), names[p])
    requires forall u: nat :: u < |names| && u != d ==> t.proc[u].que == s.proc[u].que
    ensures QueuedOnlyAt(t, names, p, d, FirstZero(s.proc[d].que, 0)) <==> NotQueued(s, names[p], names)
  {
    var k := FirstZero(s.proc[d].que, 0);
    assert Holds(t, d, k, names[p]);
    if NotQueued(s, names[p], names) {
      forall u: nat, l: nat | u < |names| && Holds(t, u, l, names[p]) ensures u == d && l == k {
        assert !Holds(s, u, l, names[p]);
      }
    } else {
      var u: nat, l: nat :| u < |names| && Holds(s, u, l, names[p]);
      assert Holds(t, u, l, names[p]) && (u, l) != (d, k);
    }
  }

  // ---------------------------------------------------------------- whole runs

  /** The m-th trap of the run is the recv of q that delivers p's message. */
  ghost predicate DeliveredAt(states: seq<System>, events: seq<Event>, names: seq<Word>, p: nat, q: nat, k: nat,
      regs: Regs, m: nat)
    requires p < |names|
  {
    && m < |events| && m + 1 < |states| && p < |states[m + 1].proc| && q < |states[m + 1].proc|
    && Delivered(states[m], events[m], states[m + 1], names, p, q, k, regs)
  }

  /** From state m on, the message waits until state j, or until a trap before that delivers it. */
  ghost predicate Survives(states: seq<System>, events: seq<Event>, names: seq<Word>, p: nat, q: nat, k: nat,
      regs: Regs, m: nat, j: nat)
    requires p < |names| && m <= j < |states|
    decreases j - m
  {
    Waiting(states[m], names, p, q, k, regs) &&
    (m == j
     || DeliveredAt(states, events, names, p, q, k, regs, m)
     || Survives(states, events, names, p, q, k, regs, m + 1, j))
  }

  /** From trap m on, no trap is one that loses the message, up to trap j or the delivery. */
  ghost predicate Spared(states: seq<System>, events: seq<Event>, names: seq<Word>, p: nat, q: nat, k: nat, regs: Regs,
      m: nat, j: nat)
    requires p < |names| && m <= j <= |events| < |states|
    decreases j - m
  {
    m == j ||
    (0 <= states[m].current < |states[m].proc| && !Loses(states[m], events[m], names[p], q, k) &&
     (DeliveredAt(states, events, names, p, q, k, regs, m) || Spared(states, events, names, p, q, k, regs, m + 1, j)))
  }

  /** The message waits in every state from m to x, and x is the end or where it is delivered. */
  ghost predicate WaitsUntil(states: seq<System>, events: seq<Event>, names: seq<Word>, p: nat, q: nat, k: nat,
      regs: Regs, m: nat, x: nat, j: nat)
    requires p < |names| && m <= x <= j < |states|
  {
    && (forall y: nat :: m <= y <= x ==> Waiting(states[y], names, p, q, k, regs))
    && (x == j || DeliveredAt(states, events, names, p, q, k, regs, x))
  }

  /** What survival means, without recursion. */
  lemma {:induction false} SurvivesMeaning(states: seq<System>, events: seq<Event>, names: seq<Word>, p: nat, q: nat,
      k: nat, regs: Regs, m: nat, j: nat)
    requires p < |names| && m <= j < |states|
    ensures Survives(states, events, names, p, q, k, regs, m, j) <==>
              exists x: nat :: m <= x <= j && WaitsUntil(states, events, names, p, q, k, regs, m, x, j)
    decreases j - m
  {
    hide Waiting, DeliveredAt;
    if m < j {
      SurvivesMeaning(states, events, names, p, q, k, regs, m + 1, j);
    }
    if Survives(states, events, names, p, q, k, regs, m, j) {
      if m == j || DeliveredAt(states, events, names, p, q, k, regs, m) {
        assert WaitsUntil(states, events, names, p, q, k, regs, m, m, j);
      } else {
        var x: nat :| m + 1 <= x <= j && WaitsUntil(states, events, names, p, q, k, regs, m + 1, x, j);
        assert WaitsUntil(states, events, names, p, q, k, regs, m, x, j);
      }
    }
    if x: nat :| m <= x <= j && WaitsUntil(states, events, names, p, q, k, regs, m, x, j) {
      assert Waiting(states[m], names, p, q, k, regs);
      if m < x {
        assert WaitsUntil(states, events, names, p, q, k, regs, m + 1, x, j);
      }
    }
  }

  /** The fate of a message in a run: it survives exactly if it is spared, whatever else the processes do. */
  lemma {:induction false} MessageFate(states: seq<System>, events: seq<Event>, names: seq<Word>, p: nat, q: nat,
      k: nat, regs: Regs, m: nat, j: nat)
    requires Run(states, events, names) && m <= j < |states| && p < |names| && q < |names|
    requires Waiting(states[m], names, p, q, k, regs)
    ensures Survives(states, events, names, p, q, k, regs, m, j) <==>
              Spared(states, events, names, p, q, k, regs, m, j)
    decreases j - m
  {
    hide Waiting, Delivered, Run, Step, Runs.Inv, Loses;
    RunSize(states, events, names);
    if m < j {
      RunStep(states, events, names, m);
      StepMessage(states[m], events[m], names, p, q, k, regs);
      if Waiting(states[m + 1], names, p, q, k, regs) {
        MessageFate(states, events, names, p, q, k, regs, m + 1, j);
      } else {
        SurvivesWaits(states, events, names, p, q, k, regs, m + 1, j);
      }
      assert DeliveredAt(states, events, names, p, q, k, regs, m) <==>
             Delivered(states[m], events[m], states[m + 1], names, p, q, k, regs);
    }
  }

  lemma SurvivesWaits(states: seq<System>, events: seq<Event>, names: seq<Word>, p: nat, q: nat, k: nat, regs: Regs,
      m: nat, j: nat)
    requires p < |names| && m <= j < |states|
    ensures Survives(states, events, names, p, q, k, regs, m, j) ==> Waiting(states[m], names, p, q, k, regs)
  {
    hide Waiting;
  }

  lemma RunSize(states: seq<System>, events: seq<Event>, names: seq<Word>)
    requires Run(states, events, names)
    ensures |states| == |events| + 1
  {
  }

  /** Without a second place in a queue, being left alone by sends and wakeups is enough. */
  lemma {:induction false} SoleIsSpared(states: seq<System>, events: seq<Event>, names: seq<Word>, p: nat, q: nat,
      k: nat, regs: Regs, m: nat, j: nat)
    requires Run(states, events, names) && m <= j < |states| && p < |names| && q < |names|
    requires Waiting(states[m], names, p, q, k, regs) && QueuedOnlyAt(states[m], names, p, q, k)
    requires |states| == |events| + 1 && forall x :: m <= x < j ==> !Aimed(events[x], names[p])
    ensures Spared(states, events, names, p, q, k, regs, m, j)
    decreases j - m
  {
    hide Waiting, Delivered, Run, Step, Runs.Inv, Aimed, Diverts, QueuedOnlyAt;
    if m < j {
      RunStep(states, events, names, m);
      WaiterSleeps(states[m], names, p, q, k, regs);
      SoleNotDiverted(states[m], events[m], names, p, q, k);
      StepMessage(states[m], events[m], names, p, q, k, regs);
      if Waiting(states[m + 1], names, p, q, k, regs) {
        WaiterHeld(states[m + 1], names, p, q, k, regs);
        StepSole(states[m], events[m], names, p, q, k);
        SoleIsSpared(states, events, names, p, q, k, regs, m + 1, j);
      }
    }
  }

  lemma WaiterHeld(s: System, names: seq<Word>, p: nat, q: nat, k: nat, regs: Regs)
    requires p < |names| && Waiting(s, names, p, q, k, regs)
    ensures Holds(s, q, k, names[p])
  {
  }

  /** Message delivery, in every run: a send to a process that is awake, while another is ready, waits until one recv of
      its destination delivers exactly what the sender trapped with, if and only if until then no trap loses it; if the
      sender was queued nowhere, it is enough that nobody sends to it or wakes it. */
  lemma Delivery(states: seq<System>, events: seq<Event>, names: seq<Word>, d: nat, i: nat, j: nat)
    requires Run(states, events, names) && i < j < |states| && d < |names|
    requires Runs.Inv(states[i], names) && states[i].proc[d].state != Sleeping
    requires events[i].Ecall? && events[i].regs.a7 == 0 && events[i].regs.a6 == names[d]
    requires AnotherReady(states[i], names)
    ensures var p, k, r := states[i].current, FirstZero(states[i].proc[d].que, 0), events[i].regs;
            && (Survives(states, events, names, p, d, k, r, i + 1, j) <==>
                  Spared(states, events, names, p, d, k, r, i + 1, j))
            && (NotQueued(states[i], names[p], names) && (forall x :: i < x < j ==> !Aimed(events[x], names[p])) ==>
                  Survives(states, events, names, p, d, k, r, i + 1, j))
  {
    hide Run, Step, Survives, Spared, Aimed, AnotherReady, NotQueued, QueuedOnlyAt, Pending;
    RunSize(states, events, names);
    RunStep(states, events, names, i);
    SendStarts(states[i], events[i], names, d);
    var p, k, r := states[i].current, FirstZero(states[i].proc[d].que, 0), events[i].regs;
    MessageFate(states, events, names, p, d, k, r, i + 1, j);
    if NotQueued(states[i], names[p], names) && forall x :: i < x < j ==> !Aimed(events[x], names[p]) {
      SoleIsSpared(states, events, names, p, d, k, r, i + 1, j);
    }
  }

  // ---------------------------------------------------------------- disciplined runs

  /** A trap that respects the discipline loses no message. */
  lemma RespectsLosesNothing(s: System, e: Event, names: seq<Word>, p: nat, q: nat, k: nat, regs: Regs)
    requires Runs.Inv(s, names) && QueuesOk(s, names) && Respects(s, e, names) && p < |names| && q < |names|
    requires Waiting(s, names, p, q, k, regs)
    ensures !Loses(s, e, names[p], q, k)
  {
    hide Blocks, NamedWait;
    assert Holds(s, q, k, names[p]);
    var l := FirstNonZero(s.proc[s.current].que, 0);
    assert l < |s.proc[s.current].que| && s.proc[s.current].que[l] == names[p] ==> Holds(s, s.current, l, names[p]);
  }

  lemma {:induction false} DisciplinedIsSpared(states: seq<System>, events: seq<Event>, names: seq<Word>, p: nat,
      q: nat, k: nat, regs: Regs, m: nat, j: nat)
    requires DisciplinedRun(states, events, names) && m <= j < |states| && p < |names| && q < |names|
    requires Waiting(states[m], names, p, q, k, regs)
    ensures |states| == |events| + 1 && Spared(states, events, names, p, q, k, regs, m, j)
    decreases j - m
  {
    hide Waiting, Delivered, Run, Step, Runs.Inv, Loses, Respects, QueuesOk, DisciplinedRun;
    DisciplinedIsRun(states, events, names);
    RunSize(states, events, names);
    if m < j {
      DisciplinedStep(states, events, names, m);
      RunStep(states, events, names, m);
      RespectsLosesNothing(states[m], events[m], names, p, q, k, regs);
      StepMessage(states[m], events[m], names, p, q, k, regs);
      if Waiting(states[m + 1], names, p, q, k, regs) {
        DisciplinedIsSpared(states, events, names, p, q, k, regs, m + 1, j);
      }
    }
  }

  lemma DisciplinedIsRun(states: seq<System>, events: seq<Event>, names: seq<Word>)
    requires DisciplinedRun(states, events, names)
    ensures Run(states, events, names)
  {
  }

  /** In a disciplined run every send to a process that is awake waits until it is delivered. */
  lemma DisciplinedDelivery(states: seq<System>, events: seq<Event>, names: seq<Word>, d: nat, i: nat, j: nat)
    requires DisciplinedRun(states, events, names) && i < j < |states| && d < |names|
    requires Runs.Inv(states[i], names) && states[i].proc[d].state != Sleeping && i < |events|
    requires events[i].Ecall? && events[i].regs.a7 == 0 && events[i].regs.a6 == names[d]
    ensures Survives(states, events, names, states[i].current, d, FirstZero(states[i].proc[d].que, 0), events[i].regs,
                     i + 1, j)
  {
    hide Step, Survives, Spared, NotQueued, QueuedOnlyAt, Pending, DisciplinedRun;
    DisciplinedIsRun(states, events, names);
    DisciplinedStep(states, events, names, i);
    SendIsReady(states[i], events[i], names, d);
    var p, k, r := states[i].current, FirstZero(states[i].proc[d].que, 0), events[i].regs;
    RunStep(states, events, names, i);
    SendStarts(states[i], events[i], names, d);
    DisciplinedIsSpared(states, events, names, p, d, k, r, i + 1, j);
    MessageFate(states, events, names, p, d, k, r, i + 1, j);
  }

  /** The discipline provides what a send needs for its message to wait. */
  lemma SendIsReady(s: System, e: Event, names: seq<Word>, d: nat)
    requires Runs.Inv(s, names) && QueuesOk(s, names) && Respects(s, e, names)
    requires e.Ecall? && e.regs.a7 == 0 && d < |names| && e.regs.a6 == names[d] && s.proc[d].state != Sleeping
    ensures AnotherReady(s, names) && NotQueued(s, names[s.current], names)
  {
    hide NamedOnce, NotQueued;
    NotWaiting(s, names);
    NotWaitingNotQueued(s, names, s.current);
    assert forall x: nat :: x < |names| && names[x] == e.regs.a6 ==> x == d;
    assert Blocks(s, e.regs, names);
  }

  // ---------------------------------------------------------------- what happens without it

  const ZERO_REGS := Regs(0, 0, 0, 0, 0, 0, 0, 0)
  const SEND_7_TO_3 := ZERO_REGS.(a0 := 7, a6 := 3)
  const SEND_9_TO_2 := ZERO_REGS.(a0 := 9, a6 := 2)
  const THREE: seq<Word> := [1, 2, 3]

  function Ready(name: Word): Slot {
    Slot(name, Runnable, true, name, [0, 0, 0], 0, ZERO_REGS)
  }

  /** Three processes before the first switch. */
  function ThreeBooted(): System {
    System([Ready(1), Ready(2), Ready(3)], -1, -1, 0)
  }

  /** The scheduler starts process 2. */
  function Second(): System {
    System([Ready(1), Ready(2).(state := Running), Ready(3)], 1, 1, 1)
  }

  /** Process 2 has sent 7 to process 3 and is queued there; process 3 runs. */
  function Third(): System {
    System([Ready(1), Ready(2).(state := Sleeping, isWaitMsg := 1, regs := SEND_7_TO_3),
            Ready(3).(state := Running, que := [2, 0, 0])], 2, 2, 2)
  }

  /** The timer has switched to process 1. */
  function First(): System {
    System([Ready(1).(state := Running), Ready(2).(state := Sleeping, isWaitMsg := 1, regs := SEND_7_TO_3),
            Ready(3).(que := [2, 0, 0])], 0, 0, 0)
  }

  /** Process 1 has sent 9 to process 2. */
  function Overwritten(): System {
    System([Ready(1).(regs := SEND_9_TO_2), Ready(2).(state := Running, regs := CopyRegs(SEND_9_TO_2, SEND_7_TO_3, 1)),
            Ready(3).(que := [2, 0, 0])], 1, 1, 1)
  }

  /** The scheduler takes the slot after its index if that one is ready. */
  lemma TakesNext(s: System, x: nat)
    requires |s.proc| == 3 && s.idx < 3 && x == (s.idx + 1) % 3 && Eligible(s.proc[x])
    ensures Schedule(s) == s.(next := x, idx := x)
  {
    assert Candidate(3, s.idx, 0) == x;
  }

  lemma FindThree(proc: seq<Slot>, x: nat)
    requires |proc| == 3 && x < 3 && forall i :: 0 <= i < 3 ==> proc[i].ipc && proc[i].name == i + 1
    ensures Find(proc, x + 1) == At(x)
  {
    assert FindFrom(proc, x + 1, x) == At(x);
    if x >= 1 { assert FindFrom(proc, x + 1, x - 1) == At(x); }
    if x == 2 { assert FindFrom(proc, x + 1, 0) == At(x); }
  }

  lemma StartsSecond()
    ensures Booted(ThreeBooted(), THREE) && Yield(ThreeBooted()) == Done(Second())
  {
    hide Schedule;
    TakesNext(ThreeBooted(), 1);
  }

  lemma SecondSends()
    ensures Step(Second(), Ecall(SEND_7_TO_3, false)) == Done(Third())
  {
    hide Schedule, Find;
    var s0 := SaveRegs(Second(), SEND_7_TO_3);
    FindThree(s0.proc, 2);
    var que: seq<Word> := [0, 0, 0];
    assert Put(que, 0, 2) == [2, 0, 0];
    assert Send(s0).Done?;
    TakesNext(Send(s0).sys, 2);
  }

  lemma ThirdTicks()
    ensures Step(Third(), Tick(ZERO_REGS)) == Done(First())
  {
    hide Schedule;
    TakesNext(SaveRegs(Third(), ZERO_REGS), 0);
  }

  lemma FirstSends()
    ensures Step(First(), Ecall(SEND_9_TO_2, false)) == Done(Overwritten())
  {
    hide Schedule, Find;
    var s0 := SaveRegs(First(), SEND_9_TO_2);
    FindThree(s0.proc, 1);
    assert Send(s0).Done?;
    TakesNext(Send(s0).sys, 1);
  }

  /** Message preservation is false of undisciplined runs: from boot, process 2 sends 7 to process 3 and is queued
      there, process 3 is interrupted, and process 1 sends 9 to process 2. The 7 is gone before process 3 has received
      it, and process 2 runs on while its name is still in the queue. */
  lemma OverwrittenMessage()
    ensures Run([Second(), Third(), First(), Overwritten()],
                [Ecall(SEND_7_TO_3, false), Tick(ZERO_REGS), Ecall(SEND_9_TO_2, false)], THREE)
    ensures Pending(First(), THREE, 1, 2, 0, SEND_7_TO_3)
    ensures var t := Overwritten();
            t.proc[1].regs.a0 == 9 && t.proc[1].state != Sleeping && Holds(t, 2, 0, 2)
  {
    hide Step, Booted, Yield;
    StartsSecond();
    SecondSends();
    ThirdTicks();
    FirstSends();
  }

  const SEND_8_TO_1 := ZERO_REGS.(a0 := 8, a6 := 1)
  const RECEIVE := ZERO_REGS.(a7 := 1)

  /** Process 2, still named in process 3's queue, has sent 8 to process 1 and is queued there as well. */
  function QueuedTwice(): System {
    System([Ready(1).(que := [2, 0, 0], regs := SEND_9_TO_2),
            Ready(2).(state := Sleeping, isWaitMsg := 1, regs := SEND_8_TO_1),
            Ready(3).(state := Running, que := [2, 0, 0])], 2, 2, 2)
  }

  /** Process 3 has received from process 2. */
  function Misdelivered(): System {
    System([Ready(1).(que := [2, 0, 0], regs := SEND_9_TO_2), Ready(2).(regs := SEND_8_TO_1),
            Ready(3).(state := Running, regs := CopyRegs(SEND_8_TO_1, RECEIVE, 2))], 2, 2, 2)
  }

  lemma SecondSendsAgain()
    ensures Step(Overwritten(), Ecall(SEND_8_TO_1, false)) == Done(QueuedTwice())
  {
    hide Schedule, Find;
    var s0 := SaveRegs(Overwritten(), SEND_8_TO_1);
    FindThree(s0.proc, 0);
    var que: seq<Word> := [0, 0, 0];
    assert Put(que, 0, 2) == [2, 0, 0];
    assert Send(s0).Done?;
    TakesNext(Send(s0).sys, 2);
  }

  lemma ThirdReceives()
    ensures Step(QueuedTwice(), Ecall(RECEIVE, false)) == Done(Misdelivered())
  {
    hide Schedule, Find;
    var s0 := SaveRegs(QueuedTwice(), RECEIVE);
    var que: seq<Word> := [2, 0, 0];
    assert FirstNonZero(que, 0) == 0;
    assert Put(que, 0, 0) == [0, 0, 0];
    FindThree(s0.proc[2 := s0.proc[2].(que := Put(que, 0, 0))], 1);
    assert Recv(s0).Done?;
  }

  /** The stale name goes on to do harm: in the same run, process 2 then sends 8 to process 1 and is queued there, and a
      recv of process 3 takes process 2's old name and with it the 8. It gets a message that was not sent to it, process
      1 does not get that message, and nobody has sent to process 2 or woken it meanwhile. */
  lemma MisdeliveredMessage()
    ensures Run([Second(), Third(), First(), Overwritten(), QueuedTwice(), Misdelivered()],
                [Ecall(SEND_7_TO_3, false), Tick(ZERO_REGS), Ecall(SEND_9_TO_2, false), Ecall(SEND_8_TO_1, false),
                 Ecall(RECEIVE, false)], THREE)
    ensures Waiting(QueuedTwice(), THREE, 1, 0, 0, SEND_8_TO_1) && !Aimed(Ecall(RECEIVE, false), 2)
    ensures Diverts(QueuedTwice(), Ecall(RECEIVE, false), 2, 0, 0)
    ensures var t := Misdelivered();
            && t.proc[2].regs.a0 == 8 && t.proc[2].regs.a3 == 2 && t.proc[0].regs.a0 != 8
            && !Waiting(t, THREE, 1, 0, 0, SEND_8_TO_1) && t.proc[1].state == Runnable
  {
    hide Step, Booted, Yield;
    StartsSecond();
    SecondSends();
    ThirdTicks();
    FirstSends();
    SecondSendsAgain();
    ThirdReceives();
    var que: seq<Word> := [2, 0, 0];
    assert FirstNonZero(que, 0) == 0;
  }
}
