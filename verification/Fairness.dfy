/** How long a queued message can wait: until the names below it are served, but those may come back for ever. */
module Fairness {
  import opened Riscv
  import opened Process
  import opened Runs
  import opened Discipline
  import opened Messages

  // ---------------------------------------------------------------- bounded overtaking

  /** How many names are queued below slot k. */
  function Low(que: seq<Word>, k: nat): nat
    requires k <= |que|
  {
    if k == 0 then 0 else Low(que, k - 1) + (if que[k - 1] != 0 then 1 else 0)
  }

  lemma {:induction false} LowBound(que: seq<Word>, k: nat)
    requires k <= |que|
    ensures Low(que, k) <= k
  {
    if k > 0 {
      LowBound(que, k - 1);
    }
  }

  /** Setting slot l to w. */
  lemma {:induction false} LowPut(que: seq<Word>, l: nat, w: Word, k: nat)
    requires l < |que| && k <= |que|
    ensures Low(Put(que, l, w), k) ==
            Low(que, k) +
            (if l < k && que[l] == 0 && w != 0 then 1 else if l < k && que[l] != 0 && w == 0 then -1 else 0)
  {
    if k > 0 {
      LowPut(que, l, w, k - 1);
    }
  }

  /** While p's message waits in slot k of q, a recv of q takes a name from a slot not above k, and the wait goes on
      exactly if that is another name. */
  lemma RecvTakesLower(s: System, e: Event, names: seq<Word>, p: nat, q: nat, k: nat, regs: Regs)
    requires Runs.Inv(s, names) && p < |names| && q < |names| && Step(s, e).Done? && IsRecv(s, e, q)
    requires Waiting(s, names, p, q, k, regs)
    ensures var que, l := s.proc[q].que, FirstNonZero(s.proc[q].que, 0);
            && l <= k < |que| && que[l] != 0
            && p < |Step(s, e).sys.proc|
            && (Waiting(Step(s, e).sys, names, p, q, k, regs) <==> que[l] != names[p])
  {
    hide Step, Runs.Inv, Waiting;
    RunBounds(s, names);
    StepMessage(s, e, names, p, q, k, regs);
    StepQueue(s, e, names, q);
    NameIsThere(s, names, p, q, k, regs);
    var que, l, t := s.proc[q].que, FirstNonZero(s.proc[q].que, 0), Step(s, e).sys;
    if que[l] == names[p] {
      if l == k {
        NotHeld(t, names, p, q, k, regs);
      } else {
        StillHeld(t, q, k, names[p]);
      }
    } else {
      StillHeld(t, q, k, names[p]);
    }
  }

  lemma RunBounds(s: System, names: seq<Word>)
    requires Runs.Inv(s, names)
    ensures 0 <= s.current < |s.proc| && |names| <= |s.proc|
  {
  }

  lemma NotHeld(s: System, names: seq<Word>, p: nat, q: nat, k: nat, regs: Regs)
    requires p < |names| && !Holds(s, q, k, names[p])
    ensures !Waiting(s, names, p, q, k, regs)
  {
  }

  lemma StillHeld(s: System, q: nat, k: nat, w: Word)
    requires q < |s.proc| && k < |s.proc[q].que| && s.proc[q].que[k] == w
    ensures Holds(s, q, k, w)
  {
  }

  lemma NameIsThere(s: System, names: seq<Word>, p: nat, q: nat, k: nat, regs: Regs)
    requires Runs.Inv(s, names) && p < |names| && Waiting(s, names, p, q, k, regs)
    ensures q < |s.proc| && k < |s.proc[q].que| && s.proc[q].que[k] == names[p] != 0
  {
  }

  /** Over a trap during which p's message waits on: every recv of q uses up a name below it, every send to q adds at
      most one. */
  lemma StepLow(s: System, e: Event, names: seq<Word>, p: nat, q: nat, k: nat, regs: Regs)
    requires Runs.Inv(s, names) && p < |names| && q < |names| && Step(s, e).Done?
    requires Waiting(s, names, p, q, k, regs) && Waiting(Step(s, e).sys, names, p, q, k, regs)
    ensures q < |s.proc| == |Step(s, e).sys.proc|
    ensures k < |s.proc[q].que| == |Step(s, e).sys.proc[q].que|
    ensures Low(Step(s, e).sys.proc[q].que, k) + (if IsRecv(s, e, q) then 1 else 0) <=
            Low(s.proc[q].que, k) + (if IsSend(e, names[q]) then 1 else 0)
  {
    hide Step, Waiting, Low, Put;
    NameIsThere(s, names, p, q, k, regs);
    StepQueue(s, e, names, q);
    var que, t := s.proc[q].que, Step(s, e).sys;
    PutSize(que);
    if IsRecv(s, e, q) {
      RecvTakesLower(s, e, names, p, q, k, regs);
      LowPut(que, FirstNonZero(que, 0), 0, k);
    } else if IsSend(e, names[q]) && t.proc[q].que != que {
      LowPut(que, FirstZero(que, 0), names[s.current], k);
    }
  }

  lemma PutSize(que: seq<Word>)
    ensures forall l: nat, w: Word :: l < |que| ==> |Put(que, l, w)| == |que|
  {
  }

  /** How many of the traps i .. j - 1 are a recv of q. */
  ghost function RecvsBy(states: seq<System>, events: seq<Event>, q: nat, i: nat, j: nat): nat
    requires i <= j <= |events| < |states|
  {
    if i == j then 0
    else RecvsBy(states, events, q, i, j - 1) + (if IsRecv(states[j - 1], events[j - 1], q) then 1 else 0)
  }

  /** How many of the traps i .. j - 1 are a send to the process of that name. */
  ghost function SendsTo(events: seq<Event>, w: Word, i: nat, j: nat): nat
    requires i <= j <= |events|
  {
    if i == j then 0 else SendsTo(events, w, i, j - 1) + (if IsSend(events[j - 1], w) then 1 else 0)
  }

  /** Bounded overtaking: while a message waits in slot k, its receiver has done at most k recvs more than it has been
      sent to meanwhile. */
  lemma {:induction false} BoundedOvertaking(states: seq<System>, events: seq<Event>, names: seq<Word>, p: nat, q: nat,
      k: nat, regs: Regs, i: nat, j: nat)
    requires Run(states, events, names) && i <= j < |states| && p < |names| && q < |names|
    requires forall x :: i <= x <= j ==> Waiting(states[x], names, p, q, k, regs)
    ensures |states| == |events| + 1 && q < |states[i].proc| && q < |states[j].proc|
    ensures k < |states[i].proc[q].que| && k < |states[j].proc[q].que|
    ensures RecvsBy(states, events, q, i, j) + Low(states[j].proc[q].que, k) <=
            Low(states[i].proc[q].que, k) + SendsTo(events, names[q], i, j)
    ensures RecvsBy(states, events, q, i, j) <= k + SendsTo(events, names[q], i, j)
    decreases j - i
  {
    hide Run, Step, Waiting, Low, IsRecv, IsSend, Runs.Inv;
    RunSize(states, events, names);
    RunInv(states, events, names, i);
    NameIsThere(states[i], names, p, q, k, regs);
    if i < j {
      BoundedOvertaking(states, events, names, p, q, k, regs, i, j - 1);
      RunStep(states, events, names, j - 1);
      assert Waiting(states[j - 1], names, p, q, k, regs) && Waiting(states[j], names, p, q, k, regs);
      StepLow(states[j - 1], events[j - 1], names, p, q, k, regs);
    }
    LowBound(states[i].proc[q].que, k);
  }

  // ---------------------------------------------------------------- starvation

  const SEND_TO_1 := ZERO_REGS.(a6 := 1)
  const RECV := ZERO_REGS.(a7 := 1)

  /** A process blocked in its send to process 1. */
  function Blocked(name: Word): Slot {
    Ready(name).(state := Sleeping, isWaitMsg := 1, regs := SEND_TO_1)
  }

  /** Process 2 is queued at process 1; process 3 runs. */
  function OneQueued(): System {
    System([Ready(1).(que := [2, 0, 0]), Blocked(2), Ready(3).(state := Running)], 2, 2, 2)
  }

  /** Processes 2 and 3 are queued at process 1, which runs. */
  function BothQueued(): System {
    System([Ready(1).(state := Running, que := [2, 3, 0]), Blocked(2), Blocked(3)], 0, 0, 0)
  }

  /** Process 1 has received from process 2. */
  function Received(): System {
    System([Ready(1).(state := Running, que := [0, 3, 0], regs := CopyRegs(SEND_TO_1, RECV, 2)),
            Ready(2).(regs := SEND_TO_1), Blocked(3)], 0, 0, 0)
  }

  /** The timer has switched to process 2. */
  function SecondAgain(): System {
    System([Ready(1).(que := [0, 3, 0]), Ready(2).(state := Running, regs := SEND_TO_1), Blocked(3)], 1, 1, 1)
  }

  /** The scheduler passes over one slot and takes the next. */
  lemma TakesSecond(s: System, x: nat)
    requires |s.proc| == 3 && s.idx < 3 && x == (s.idx + 2) % 3
    requires !Eligible(s.proc[(s.idx + 1) % 3]) && Eligible(s.proc[x])
    ensures Schedule(s) == s.(next := x, idx := x)
  {
    assert Candidate(3, s.idx, 0) == (s.idx + 1) % 3 && Candidate(3, s.idx, 1) == x;
    assert Passed(s.proc, s.idx, 1) == 1;
    assert Passed(s.proc, s.idx, 0) == 1;
  }

  lemma SecondQueues()
    ensures Step(Second(), Ecall(SEND_TO_1, false)) == Done(OneQueued())
  {
    hide Schedule, Find;
    var s0 := SaveRegs(Second(), SEND_TO_1);
    FindThree(s0.proc, 0);
    var que: seq<Word> := [0, 0, 0];
    assert Put(que, 0, 2) == [2, 0, 0];
    assert Send(s0).Done?;
    TakesNext(Send(s0).sys, 2);
  }

  lemma ThirdQueues()
    ensures Step(OneQueued(), Ecall(SEND_TO_1, false)) == Done(BothQueued())
  {
    hide Schedule, Find;
    var s0 := SaveRegs(OneQueued(), SEND_TO_1);
    FindThree(s0.proc, 0);
    var que: seq<Word> := [2, 0, 0];
    assert FirstZero(que, 1) == 1 && FirstZero(que, 0) == 1;
    assert Put(que, 1, 3) == [2, 3, 0];
    assert Send(s0).Done?;
    TakesNext(Send(s0).sys, 0);
  }

  lemma FirstReceives()
    ensures Step(BothQueued(), Ecall(RECV, false)) == Done(Received())
  {
    hide Schedule, Find;
    var s0 := SaveRegs(BothQueued(), RECV);
    var que: seq<Word> := [2, 3, 0];
    assert FirstNonZero(que, 0) == 0;
    assert Put(que, 0, 0) == [0, 3, 0];
    FindThree(s0.proc[0 := s0.proc[0].(que := Put(que, 0, 0))], 1);
    assert Recv(s0).Done?;
  }

  lemma FirstTicks()
    ensures Step(Received(), Tick(ZERO_REGS)) == Done(SecondAgain())
  {
    hide Schedule;
    TakesNext(SaveRegs(Received(), ZERO_REGS), 1);
  }

  lemma SecondRequeues()
    ensures Step(SecondAgain(), Ecall(SEND_TO_1, false)) == Done(BothQueued())
  {
    hide Schedule, Find;
    var s0 := SaveRegs(SecondAgain(), SEND_TO_1);
    FindThree(s0.proc, 0);
    var que: seq<Word> := [0, 3, 0];
    assert FirstZero(que, 0) == 0;
    assert Put(que, 0, 2) == [2, 3, 0];
    assert Send(s0).Done?;
    TakesSecond(Send(s0).sys, 0);
  }

  /** n rounds: process 1 receives, is interrupted, and process 2 sends again. */
  function Rounds(n: nat): (r: (seq<System>, seq<Event>))
    ensures |r.0| == 3 + 3 * n && |r.1| == 2 + 3 * n && r.0[|r.0| - 1] == BothQueued()
  {
    if n == 0 then ([Second(), OneQueued(), BothQueued()], [Ecall(SEND_TO_1, false), Ecall(SEND_TO_1, false)])
    else
      var (states, events) := Rounds(n - 1);
      (states + [Received(), SecondAgain(), BothQueued()],
       events + [Ecall(RECV, false), Tick(ZERO_REGS), Ecall(SEND_TO_1, false)])
  }

  /** One more trap. */
  lemma Extend(states: seq<System>, events: seq<Event>, names: seq<Word>, e: Event, t: System)
    requires DisciplinedRun(states, events, names) && |states| > 0
    requires Runs.Inv(states[|states| - 1], names) && Respects(states[|states| - 1], e, names)
    requires 0 <= states[|states| - 1].current < |states[|states| - 1].proc|
    requires Step(states[|states| - 1], e) == Done(t)
    ensures DisciplinedRun(states + [t], events + [e], names)
  {
    hide Step, Respects, Runs.Inv, Booted, Yield;
    var states', events' := states + [t], events + [e];
    forall k: nat | k < |events'|
      ensures 0 <= states'[k].current < |states'[k].proc| && Step(states'[k], events'[k]) == Done(states'[k + 1])
      ensures Runs.Inv(states'[k], names) ==> Respects(states'[k], events'[k], names)
    {
      if k < |events| {
        assert events'[k] == events[k] && states'[k] == states[k] && states'[k + 1] == states[k + 1];
      } else {
        assert events'[k] == e && states'[k] == states[|states| - 1] && states'[k + 1] == t;
      }
    }
    assert states'[0] == states[0];
  }

  /** A send to process 1, which is awake, by a process that is not the only one ready. */
  lemma SendsWell(s: System)
    requires Runs.Inv(s, THREE) && s.proc[0].state != Sleeping && AnotherReady(s, THREE)
    ensures Respects(s, Ecall(SEND_TO_1, false), THREE)
  {
    assert THREE[0] == 1;
  }

  lemma QueuedStates()
    ensures Runs.Inv(Second(), THREE) && Runs.Inv(OneQueued(), THREE) && Runs.Inv(BothQueued(), THREE)
    ensures Runs.Inv(Received(), THREE) && Runs.Inv(SecondAgain(), THREE)
  {
  }

  lemma WaitsInSecondSlot(s: System)
    requires s == BothQueued() || s == Received() || s == SecondAgain()
    ensures Waiting(s, THREE, 2, 0, 1, SEND_TO_1)
  {
  }

  lemma StartRounds()
    ensures DisciplinedRun(Rounds(0).0, Rounds(0).1, THREE)
  {
    hide Step, Yield, Booted, Runs.Inv, Respects, Resolves;
    QueuedStates();
    StartsSecond();
    SecondQueues();
    ThirdQueues();
    assert Second().proc[0].state == Runnable && OneQueued().proc[0].state == Runnable;
    SendsWell(Second());
    SendsWell(OneQueued());
  }

  /** One round keeps the run disciplined. */
  lemma ExtendRound(states: seq<System>, events: seq<Event>)
    requires DisciplinedRun(states, events, THREE) && |states| > 0 && states[|states| - 1] == BothQueued()
    ensures DisciplinedRun(states + [Received(), SecondAgain(), BothQueued()],
                           events + [Ecall(RECV, false), Tick(ZERO_REGS), Ecall(SEND_TO_1, false)], THREE)
  {
    hide Step, DisciplinedRun, Runs.Inv, Respects;
    QueuedStates();
    FirstReceives();
    FirstTicks();
    SecondRequeues();
    RecvsWell();
    assert SecondAgain().proc[0].state == Runnable;
    SendsWell(SecondAgain());
    Extend(states, events, THREE, Ecall(RECV, false), Received());
    Extend(states + [Received()], events + [Ecall(RECV, false)], THREE, Tick(ZERO_REGS), SecondAgain());
    Extend(states + [Received()] + [SecondAgain()], events + [Ecall(RECV, false)] + [Tick(ZERO_REGS)], THREE,
           Ecall(SEND_TO_1, false), BothQueued());
    assert states + [Received()] + [SecondAgain()] + [BothQueued()] ==
           states + [Received(), SecondAgain(), BothQueued()];
    assert events + [Ecall(RECV, false)] + [Tick(ZERO_REGS)] + [Ecall(SEND_TO_1, false)] ==
           events + [Ecall(RECV, false), Tick(ZERO_REGS), Ecall(SEND_TO_1, false)];
  }

  lemma RecvsWell()
    requires Runs.Inv(BothQueued(), THREE) && Runs.Inv(Received(), THREE)
    ensures Respects(BothQueued(), Ecall(RECV, false), THREE) && Respects(Received(), Tick(ZERO_REGS), THREE)
  {
    var que: seq<Word> := [2, 3, 0];
    assert FirstNonZero(que, 0) == 0;
  }

  /** A run counts the traps of its first part as that part does. */
  lemma {:induction false} RecvsPrefix(states: seq<System>, events: seq<Event>, states': seq<System>,
      events': seq<Event>, q: nat, i: nat, j: nat)
    requires i <= j <= |events| < |states| && |events + events'| < |states + states'|
    ensures RecvsBy(states + states', events + events', q, i, j) == RecvsBy(states, events, q, i, j)
    decreases j
  {
    hide IsRecv;
    if i < j {
      RecvsPrefix(states, events, states', events', q, i, j - 1);
      assert (states + states')[j - 1] == states[j - 1] && (events + events')[j - 1] == events[j - 1];
    }
  }

  /** No upper bound on the wait: for every n there is a disciplined run in which process 1 receives n times while the
      message of process 3 waits in its slot. */
  lemma {:induction false} Starvation(n: nat)
    ensures var (states, events) := Rounds(n);
            && DisciplinedRun(states, events, THREE)
            && (forall j: nat {:trigger states[j]} :: 2 <= j < |states| ==>
                  Waiting(states[j], THREE, 2, 0, 1, SEND_TO_1))
            && RecvsBy(states, events, 0, 2, |events|) == n
  {
    hide DisciplinedRun, Waiting, IsRecv;
    if n == 0 {
      StartRounds();
      WaitsInSecondSlot(BothQueued());
    } else {
      Starvation(n - 1);
      var (states, events) := Rounds(n - 1);
      ExtendRound(states, events);
      WaitsInSecondSlot(Received());
      WaitsInSecondSlot(SecondAgain());
      WaitsInSecondSlot(BothQueued());
      CountRound(states, events, n - 1);
    }
  }

  lemma CountRound(states: seq<System>, events: seq<Event>, n: nat)
    requires |states| == |events| + 1 && |events| >= 2 && states[|states| - 1] == BothQueued()
    requires RecvsBy(states, events, 0, 2, |events|) == n
    ensures RecvsBy(states + [Received(), SecondAgain(), BothQueued()],
                    events + [Ecall(RECV, false), Tick(ZERO_REGS), Ecall(SEND_TO_1, false)], 0, 2, |events| + 3) ==
            n + 1
  {
    var s := [Received(), SecondAgain(), BothQueued()];
    var e := [Ecall(RECV, false), Tick(ZERO_REGS), Ecall(SEND_TO_1, false)];
    var m := |events|;
    RecvsPrefix(states, events, s, e, 0, 2, m);
    assert (states + s)[m] == BothQueued() && (events + e)[m] == Ecall(RECV, false);
    assert (events + e)[m + 1] == Tick(ZERO_REGS) && (events + e)[m + 2] == Ecall(SEND_TO_1, false);
    assert RecvsBy(states + s, events + e, 0, 2, m + 1) == n + 1;
    assert RecvsBy(states + s, events + e, 0, 2, m + 2) == n + 1;
  }
}
