/** Which traps panic, in every run, whether disciplined or not. */
module Panics {
  import opened Riscv
  import opened Process
  import opened Runs
  import opened Discipline

  /** Whatever is in a queue is the name of a process. */
  ghost predicate NamesKnown(s: System, names: seq<Word>) {
    forall q: nat, k: nat, w: Word {:trigger Holds(s, q, k, w)} ::
      q < |names| && w != 0 && Holds(s, q, k, w) ==> w in names
  }

  predicate Full(que: seq<Word>) {
    forall k :: 0 <= k < |que| ==> que[k] != 0
  }

  /** A send to this name panics: nobody has it, or its process is awake and its queue is full. */
  ghost predicate SendPanics(s: System, names: seq<Word>, name: Word)
    requires TableOk(s.proc, names)
  {
    || name !in names
    || exists d: nat :: d < |names| && names[d] == name && s.proc[d].state != Sleeping && Full(s.proc[d].que)
  }

  /** What makes a trap panic, read off the state before it. A search for a name nobody has runs into an unused slot, or
      finds nobody if all are used; some callers go on from the latter. */
  ghost predicate Panics(s: System, e: Event, names: seq<Word>)
    requires TableOk(s.proc, names)
  {
    e.Ecall? &&
    var r, spare := e.regs, |names| < |s.proc|;
    || r.a7 > 5
    || (r.a7 == 0 && SendPanics(s, names, r.a6))
    || (r.a7 == 2 && spare && (r.a0 !in names || r.a1 !in names))
    || (r.a7 == 3 && (r.a3 !in names || (r.a0 !in names && (spare || e.mapped))))
    || ((r.a7 == 4 || r.a7 == 5) && r.a0 !in names)
  }

  // ---------------------------------------------------------------- queued names

  /** Every trap keeps the queued names known: only a running process puts a name into a queue, its own. */
  lemma StepNames(s: System, e: Event, names: seq<Word>)
    requires Runs.Inv(s, names) && NamesKnown(s, names) && Step(s, e).Done?
    ensures NamesKnown(Step(s, e).sys, names)
  {
    hide Step, Runs.Inv;
    CurrentName(s, names);
    var t := Step(s, e).sys;
    forall q: nat, k: nat, w: Word | q < |names| && w != 0 && Holds(t, q, k, w) ensures w in names {
      StepQueue(s, e, names, q);
      assert Holds(s, q, k, w) || w == names[s.current];
    }
  }

  lemma CurrentName(s: System, names: seq<Word>)
    requires Runs.Inv(s, names)
    ensures 0 <= s.current < |names| <= |s.proc|
  {
  }

  lemma {:induction false} RunNames(states: seq<System>, events: seq<Event>, names: seq<Word>, k: nat)
    requires Run(states, events, names) && k < |states|
    ensures Runs.Inv(states[k], names) && NamesKnown(states[k], names)
  {
    RunInv(states, events, names, k);
    if k == 0 {
      var b :| Booted(b, names) && |b.proc| > 0 && Yield(b) == Done(states[0]);
      BootNames(b, names);
    } else {
      hide Run, Step, NamesKnown;
      RunNames(states, events, names, k - 1);
      RunStep(states, events, names, k - 1);
      StepNames(states[k - 1], events[k - 1], names);
    }
  }

  lemma BootNames(b: System, names: seq<Word>)
    requires Booted(b, names) && |b.proc| > 0 && Yield(b).Done?
    ensures NamesKnown(Yield(b).sys, names)
  {
    var s := Yield(b).sys;
    forall q: nat, k: nat, w: Word | q < |names| && w != 0 ensures !Holds(s, q, k, w) {
      assert SlotOk(b.proc[q], q, names, |b.proc|);
    }
  }

  // ---------------------------------------------------------------- panics

  lemma SendPanicsExactly(s: System, names: seq<Word>)
    requires Runs.Inv(s, names)
    ensures Send(s).Panic? <==> SendPanics(s, names, s.proc[s.current].regs.a6)
  {
    var name := s.proc[s.current].regs.a6;
    FindRegistered(s.proc, names, name);
    if name in names {
      var d := IndexOf(names, name);
      assert Find(s.proc, name) == At(d);
      assert forall x: nat :: x < |names| && names[x] == name ==> x == d;
      FullExactly(s.proc[d].que);
    }
  }

  lemma FullExactly(que: seq<Word>)
    ensures Full(que) <==> FirstZero(que, 0) == |que|
  {
  }

  /** recv never panics: the name it takes is known. */
  lemma RecvNeverPanics(s: System, names: seq<Word>)
    requires Runs.Inv(s, names) && NamesKnown(s, names)
    ensures Recv(s).Done?
  {
    var que := s.proc[s.current].que;
    var k := FirstNonZero(que, 0);
    if k < |que| {
      assert Holds(s, s.current, k, que[k]);
      var t := s.proc[s.current := s.proc[s.current].(que := Put(que, k, 0))];
      assert TableOk(t, names);
      FindRegistered(t, names, que[k]);
      assert names[IndexOf(names, que[k])] == que[k];
    }
  }

  lemma FindKnown(s: System, names: seq<Word>, name: Word)
    requires TableOk(s.proc, names)
    ensures name in names ==> Find(s.proc, name).At?
    ensures name !in names ==> Find(s.proc, name) == if |names| < |s.proc| then Fault else Nobody
  {
    FindRegistered(s.proc, names, name);
    if name in names {
      assert names[IndexOf(names, name)] == name;
    }
  }

  lemma CallPanics(s: System, e: Event, names: seq<Word>)
    requires Runs.Inv(s, names) && NamesKnown(s, names) && e.Ecall? && s.proc[s.current].regs == e.regs
    ensures IpcCall(s, e.mapped).Panic? <==> Panics(s, e, names)
  {
    hide Send, Recv, Find, SendPanics, NamesKnown;
    SendPanicsExactly(s, names);
    RecvNeverPanics(s, names);
    FindKnown(s, names, e.regs.a0);
    FindKnown(s, names, e.regs.a1);
    FindKnown(s, names, e.regs.a3);
  }

  /** Saving the registers changes nothing a panic depends on. */
  lemma SavedPanics(s: System, e: Event, names: seq<Word>)
    requires Runs.Inv(s, names) && NamesKnown(s, names)
    ensures var s0 := SaveRegs(s, e.regs);
            && Runs.Inv(s0, names) && NamesKnown(s0, names) && s0.proc[s0.current].regs == e.regs
            && (Panics(s0, e, names) <==> Panics(s, e, names))
  {
    var s0 := SaveRegs(s, e.regs);
    assert forall q: nat, k: nat, w: Word :: Holds(s0, q, k, w) == Holds(s, q, k, w);
    assert forall d: nat :: d < |names| ==> s0.proc[d].state == s.proc[d].state && s0.proc[d].que == s.proc[d].que;
  }

  /** A trap panics exactly if the state and the registers before it say so; a tick never does, nor does a recv. */
  lemma StepPanics(s: System, e: Event, names: seq<Word>)
    requires Runs.Inv(s, names) && NamesKnown(s, names)
    ensures Step(s, e).Panic? <==> Panics(s, e, names)
  {
    hide IpcCall, Yield, Panics, NamesKnown;
    var s0 := SaveRegs(s, e.regs);
    SavedPanics(s, e, names);
    match e
    case Tick(_) =>
      YieldKeeps(s0, names);
      TicksDoNot(s, e, names);
    case Ecall(_, mapped) =>
      CallPanics(s0, e, names);
      CallKeeps(s0, names, mapped);
      if IpcCall(s0, mapped).Done? {
        YieldKeeps(IpcCall(s0, mapped).sys, names);
      }
  }

  lemma TicksDoNot(s: System, e: Event, names: seq<Word>)
    requires TableOk(s.proc, names) && e.Tick?
    ensures !Panics(s, e, names)
  {
  }

  /** In every run, a trap panics exactly if it is one of these. */
  lemma RunPanics(states: seq<System>, events: seq<Event>, names: seq<Word>, k: nat, e: Event)
    requires Run(states, events, names) && k < |states|
    ensures Runs.Inv(states[k], names) && (Step(states[k], e).Panic? <==> Panics(states[k], e, names))
  {
    hide Run, Step, Panics, NamesKnown;
    RunNames(states, events, names, k);
    StepPanics(states[k], e, names);
  }
}
