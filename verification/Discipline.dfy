/** Disciplined runs: what the processes must respect so that no call panics and no message is lost or changed. */
module Discipline {
  import opened Riscv
  import opened Process
  import opened Runs
  import opened Sets

  predicate Holds(s: System, q: nat, k: nat, name: Word) {
    q < |s.proc| && k < |s.proc[q].que| && s.proc[q].que[k] == name
  }

  ghost predicate NotQueued(s: System, name: Word, names: seq<Word>) {
    forall q: nat, k: nat {:trigger Holds(s, q, k, name)} :: q < |names| ==> !Holds(s, q, k, name)
  }

  function IndexOf(names: seq<Word>, name: Word): (i: nat)
    requires name in names
    ensures i < |names| && names[i] == name
  {
    if names[0] == name then 0 else 1 + IndexOf(names[1..], name)
  }

  /** Whoever is named in a queue is a process that waits for a message. */
  ghost predicate NamedWait(s: System, names: seq<Word>)
    requires TableOk(s.proc, names)
  {
    forall q: nat, k: nat, w: Word {:trigger Holds(s, q, k, w)} :: q < |names| && w != 0 && Holds(s, q, k, w) ==>
      w in names && s.proc[IndexOf(names, w)].isWaitMsg == 1
  }

  /** Nobody is named twice. */
  ghost predicate NamedOnce(s: System, names: seq<Word>) {
    forall q: nat, k: nat, u: nat, l: nat, w: Word {:trigger Holds(s, q, k, w), Holds(s, u, l, w)} ::
      q < |names| && u < |names| && w != 0 && Holds(s, q, k, w) && Holds(s, u, l, w) ==> q == u && k == l
  }

  /** Whoever waits for a message sleeps. */
  ghost predicate WaitersSleep(s: System, names: seq<Word>)
    requires TableOk(s.proc, names)
  {
    forall p: nat :: p < |names| && s.proc[p].isWaitMsg == 1 ==> s.proc[p].state == Sleeping
  }

  ghost predicate QueuesOk(s: System, names: seq<Word>)
    requires TableOk(s.proc, names)
  {
    NamedWait(s, names) && NamedOnce(s, names) && WaitersSleep(s, names)
  }

  /** The call exists, and so do the processes it names. */
  predicate Resolves(e: Event, names: seq<Word>) {
    e.Ecall? ==>
      var r := e.regs;
      && r.a7 <= 5
      && (r.a7 == 0 ==> r.a6 in names)
      && (r.a7 == 2 ==> r.a0 in names && r.a1 in names)
      && (r.a7 == 3 ==> r.a0 in names && r.a3 in names)
      && (r.a7 == 4 || r.a7 == 5 ==> r.a0 in names)
  }

  ghost predicate SendsRight(s: System, r: Regs, names: seq<Word>)
    requires TableOk(s.proc, names)
  {
    r.a7 == 0 ==> forall d: nat :: d < |names| && names[d] == r.a6 && s.proc[d].state == Sleeping ==>
      NotQueued(s, r.a6, names)
  }

  ghost predicate WakesRight(s: System, r: Regs, names: seq<Word>)
    requires TableOk(s.proc, names)
  {
    r.a7 == 5 ==> forall x: nat :: x < |names| && names[x] == r.a0 ==> s.proc[x].isWaitMsg != 1
  }

  /** The call will block its caller: a send to a process that is awake, or a recv on an empty queue. */
  ghost predicate Blocks(s: System, r: Regs, names: seq<Word>)
    requires TableOk(s.proc, names) && 0 <= s.current < |s.proc|
  {
    || (r.a7 == 0 && forall d: nat :: d < |names| && names[d] == r.a6 ==> s.proc[d].state != Sleeping)
    || (r.a7 == 1 && FirstNonZero(s.proc[s.current].que, 0) == |s.proc[s.current].que|)
  }

  ghost predicate BlocksRight(s: System, r: Regs, names: seq<Word>)
    requires TableOk(s.proc, names) && 0 <= s.current < |s.proc|
  {
    Blocks(s, r, names) ==> AnotherReady(s, names)
  }

  /** No send to a sleeper that is itself queued somewhere as a sender; no wakeup of a process that waits for a message;
      and nobody blocks when no other process is ready. */
  ghost predicate Courteous(s: System, e: Event, names: seq<Word>)
    requires Runs.Inv(s, names)
  {
    e.Ecall? ==> SendsRight(s, e.regs, names) && WakesRight(s, e.regs, names) && BlocksRight(s, e.regs, names)
  }

  ghost predicate Respects(s: System, e: Event, names: seq<Word>)
    requires Runs.Inv(s, names)
  {
    Resolves(e, names) && Courteous(s, e, names)
  }

  // ---------------------------------------------------------------- the queue cannot overflow

  /** n distinct numbers below n include every one of them. */
  lemma Pigeonhole(f: seq<nat>, m: nat)
    requires forall k :: 0 <= k < |f| ==> f[k] < |f|
    requires forall j, k :: 0 <= j < k < |f| ==> f[j] != f[k]
    requires m < |f|
    ensures m in f
  {
    var values := set k | 0 <= k < |f| :: f[k];
    ValuesSize(f, |f|);
    BelowSize(|f|);
    if m !in f {
      SubsetSize(values, Below(|f|) - {m});
    }
  }

  function Below(n: nat): (s: set<nat>)
    ensures forall i: nat :: i in s <==> i < n
  {
    if n == 0 then {} else Below(n - 1) + {n - 1}
  }

  lemma {:induction false} BelowSize(n: nat)
    ensures |Below(n)| == n
  {
    if n > 0 {
      BelowSize(n - 1);
    }
  }

  lemma {:induction false} ValuesSize(f: seq<nat>, n: nat)
    requires n <= |f| && forall j, k :: 0 <= j < k < |f| ==> f[j] != f[k]
    ensures |set k | 0 <= k < n :: f[k]| == n
  {
    var s := set k | 0 <= k < n :: f[k];
    if n > 0 {
      ValuesSize(f, n - 1);
      var t := set k | 0 <= k < n - 1 :: f[k];
      assert s == t + {f[n - 1]} && f[n - 1] !in t;
    } else {
      assert s == {};
    }
  }

  /** A queue has room for a process that is not waiting: its entries are others, and there are not enough of them. */
  lemma RoomInQueue(s: System, names: seq<Word>, d: nat, cur: nat)
    requires TableOk(s.proc, names) && QueuesOk(s, names) && d < |names| && cur < |names| && s.proc[cur].isWaitMsg != 1
    ensures FirstZero(s.proc[d].que, 0) < |s.proc[d].que|
  {
    var que, n := s.proc[d].que, |s.proc|;
    if FirstZero(que, 0) == |que| {
      assert SlotOk(s.proc[d], d, names, n);
      forall k: nat | k < n ensures que[k] in names && s.proc[IndexOf(names, que[k])].isWaitMsg == 1 {
        assert que[k] != 0 && Holds(s, d, k, que[k]);
      }
      forall j: nat, k: nat | j < k < n ensures que[j] != que[k] {
        assert Holds(s, d, j, que[j]) && Holds(s, d, k, que[k]);
      }
      var f: seq<nat> := seq(n, k requires 0 <= k < n => IndexOf(names, que[k]));
      assert forall k :: 0 <= k < n ==> names[f[k]] == que[k];
      Pigeonhole(f, cur);
    }
  }

  // ---------------------------------------------------------------- the calls keep the queues in order

  /** Queues that only lost entries stay in order, if whoever stopped waiting is no longer named. */
  lemma EntriesKept(s: System, s': System, names: seq<Word>)
    requires TableOk(s.proc, names) && TableOk(s'.proc, names) && NamedWait(s, names) && NamedOnce(s, names)
    requires forall q: nat, k: nat, w: Word {:trigger Holds(s', q, k, w)} ::
               q < |names| && w != 0 && Holds(s', q, k, w) ==>
                 Holds(s, q, k, w)
    requires forall p: nat :: p < |names| && s.proc[p].isWaitMsg == 1 && s'.proc[p].isWaitMsg != 1 ==>
               NotQueued(s', names[p], names)
    ensures NamedWait(s', names) && NamedOnce(s', names)
  {
    forall q: nat, k: nat, w: Word | q < |names| && w != 0 && Holds(s', q, k, w)
      ensures w in names && s'.proc[IndexOf(names, w)].isWaitMsg == 1
    {
      assert Holds(s, q, k, w);
    }
  }

  /** One new entry, naming a process that was named nowhere and now waits. */
  lemma EntryAdded(s: System, s': System, names: seq<Word>, d: nat, slot: nat, p: nat)
    requires TableOk(s.proc, names) && TableOk(s'.proc, names) && NamedWait(s, names) && NamedOnce(s, names)
             && p < |names|
    requires forall q: nat, k: nat, w: Word {:trigger Holds(s', q, k, w)} ::
               q < |names| && w != 0 && Holds(s', q, k, w) ==>
               if q == d && k == slot then w == names[p] else Holds(s, q, k, w)
    requires NotQueued(s, names[p], names) && s'.proc[p].isWaitMsg == 1
    requires forall x: nat :: x < |names| && s.proc[x].isWaitMsg == 1 ==> s'.proc[x].isWaitMsg == 1
    ensures NamedWait(s', names) && NamedOnce(s', names)
  {
    forall q: nat, k: nat, w: Word | q < |names| && w != 0 && Holds(s', q, k, w)
      ensures w in names && s'.proc[IndexOf(names, w)].isWaitMsg == 1
    {
      if q == d && k == slot {
        IndexIs(s.proc, names, p);
      } else {
        assert Holds(s, q, k, w);
      }
    }
  }

  lemma IndexIs(proc: seq<Slot>, names: seq<Word>, p: nat)
    requires TableOk(proc, names) && p < |names|
    ensures IndexOf(names, names[p]) == p
  {
    var i := IndexOf(names, names[p]);
    assert names[i] == names[p];
  }

  /** A process that does not wait is named in no queue. */
  lemma NotWaitingNotQueued(s: System, names: seq<Word>, p: nat)
    requires TableOk(s.proc, names) && NamedWait(s, names) && p < |names| && s.proc[p].isWaitMsg != 1
    ensures NotQueued(s, names[p], names)
  {
    IndexIs(s.proc, names, p);
  }

  lemma SendQueues(s: System, names: seq<Word>)
    requires Runs.Inv(s, names) && QueuesOk(s, names)
    requires var r := s.proc[s.current].regs; r.a7 == 0 && r.a6 in names && SendsRight(s, r, names)
    ensures Send(s).Done? && TableOk(Send(s).sys.proc, names) && QueuesOk(Send(s).sys, names)
  {
    hide NamedOnce;
    var cur, r := s.current, s.proc[s.current].regs;
    var d := IndexOf(names, r.a6);
    FindRegistered(s.proc, names, r.a6);
    SendKeeps(s, names);
    assert SlotOk(s.proc[cur], cur, names, |s.proc|) && SlotOk(s.proc[d], d, names, |s.proc|);
    if s.proc[d].state == Sleeping {
      var s' := Send(s).sys;
      forall p: nat | p < |names| && s.proc[p].isWaitMsg == 1
          && s'.proc[p].isWaitMsg != 1 ensures NotQueued(s', names[p], names) {
        forall q: nat, k: nat | q < |names| ensures !Holds(s', q, k, names[p]) {
          assert !Holds(s, q, k, r.a6);
        }
      }
      EntriesKept(s, s', names);
    } else {
      RoomInQueue(s, names, d, cur);
      NotWaitingNotQueued(s, names, cur);
      EntryAdded(s, Send(s).sys, names, d, FirstZero(s.proc[d].que, 0), cur);
    }
  }

  lemma RecvQueues(s: System, names: seq<Word>)
    requires Runs.Inv(s, names) && QueuesOk(s, names)
    ensures Recv(s).Done? && TableOk(Recv(s).sys.proc, names) && QueuesOk(Recv(s).sys, names)
  {
    var cur := s.current;
    var que := s.proc[cur].que;
    var k := FirstNonZero(que, 0);
    assert SlotOk(s.proc[cur], cur, names, |s.proc|);
    RecvKeeps(s, names);
    if k < |que| {
      assert Holds(s, cur, k, que[k]);
      var i := IndexOf(names, que[k]);
      var que': seq<Word> := que[k := 0];
      var p := s.proc[cur := s.proc[cur].(que := que')];
      assert TableOk(p, names);
      FindRegistered(p, names, que[k]);
      assert SlotOk(s.proc[i], i, names, |s.proc|);
      var s' := Recv(s).sys;
      forall q: nat, l: nat | q < |names| ensures !Holds(s', q, l, que[k]) {
        assert Holds(s', q, l, que[k]) ==> Holds(s, q, l, que[k]);
      }
      hide NamedOnce;
      EntriesKept(s, s', names);
    } else {
      hide NamedOnce;
      EntriesKept(s, Recv(s).sys, names);
    }
  }

  lemma SetStateQueues(s: System, names: seq<Word>, name: Word, state: Status)
    requires Runs.Inv(s, names) && QueuesOk(s, names) && name in names && (state == Sleeping || state == Runnable)
    requires state == Runnable ==> forall x: nat :: x < |names| && names[x] == name ==> s.proc[x].isWaitMsg != 1
    ensures SetState(s, name, state).Done?
    ensures TableOk(SetState(s, name, state).sys.proc, names) && QueuesOk(SetState(s, name, state).sys, names)
  {
    hide NamedOnce;
    FindRegistered(s.proc, names, name);
    var i := IndexOf(names, name);
    SetStateKeeps(s, names, name, state);
    EntriesKept(s, SetState(s, name, state).sys, names);
  }

  /** No call that respects the discipline panics: names resolve, and the queue has room. */
  lemma CallQueues(s: System, names: seq<Word>, e: Event)
    requires Runs.Inv(s, names) && QueuesOk(s, names) && e.Ecall? && s.proc[s.current].regs == e.regs
    requires Resolves(e, names) && SendsRight(s, e.regs, names) && WakesRight(s, e.regs, names)
    ensures var c := IpcCall(s, e.mapped);
            c.Done? && TableOk(c.sys.proc, names) && QueuesOk(c.sys, names)
  {
    hide Send, Recv, SetState, TableOk, QueuesOk, Find, NotQueued, AnotherReady, Runs.Inv;
    var r := e.regs;
    SaveSame(s, names);
    if r.a7 == 0 {
      SendQueues(s, names);
    } else if r.a7 == 1 {
      RecvQueues(s, names);
    } else if r.a7 == 2 {
      FindBoth(s, names, r.a0, r.a1);
    } else if r.a7 == 3 {
      FindBoth(s, names, r.a0, r.a3);
    } else if r.a7 == 4 {
      SetStateQueues(s, names, r.a0, Sleeping);
    } else {
      SetStateQueues(s, names, r.a0, Runnable);
    }
  }

  /** Exactly the calls that block leave their caller waiting, and asleep; they change no other process's readiness. */
  lemma CallBlocks(s: System, names: seq<Word>, e: Event)
    requires Runs.Inv(s, names) && QueuesOk(s, names) && e.Ecall? && s.proc[s.current].regs == e.regs
    requires Resolves(e, names) && IpcCall(s, e.mapped).Done? && TableOk(IpcCall(s, e.mapped).sys.proc, names)
    ensures var c := IpcCall(s, e.mapped).sys;
            && (c.proc[s.current].isWaitMsg == 1 <==> Blocks(s, e.regs, names))
            && (Blocks(s, e.regs, names) ==>
                  c.proc[s.current].state == Sleeping && (AnotherReady(c, names) <==> AnotherReady(s, names)))
  {
    hide NamedOnce, NamedWait, Find, QueuesOk;
    var c, r := IpcCall(s, e.mapped).sys, e.regs;
    NotWaiting(s, names);
    if r.a7 == 0 {
      FindRegistered(s.proc, names, r.a6);
      assert names[IndexOf(names, r.a6)] == r.a6;
    } else if r.a7 == 1 {
      RecvSource(s, names);
    }
    if Blocks(s, r, names) {
      SameReady(s, c, names);
    }
  }

  lemma NotWaiting(s: System, names: seq<Word>)
    requires Runs.Inv(s, names) && QueuesOk(s, names)
    ensures s.proc[s.current].isWaitMsg != 1
  {
    hide NamedOnce, NamedWait;
  }

  /** The process whose message recv takes is another one: the caller does not wait. */
  lemma RecvSource(s: System, names: seq<Word>)
    requires Runs.Inv(s, names) && QueuesOk(s, names) && Recv(s).Done?
    ensures var k := FirstNonZero(s.proc[s.current].que, 0);
            k < |s.proc[s.current].que| ==> Recv(s).sys.proc[s.current].isWaitMsg == s.proc[s.current].isWaitMsg
  {
    hide NamedOnce;
    var que := s.proc[s.current].que;
    var k := FirstNonZero(que, 0);
    assert SlotOk(s.proc[s.current], s.current, names, |s.proc|);
    if k < |que| {
      assert Holds(s, s.current, k, que[k]);
      var t := s.proc[s.current := s.proc[s.current].(que := Put(que, k, 0))];
      assert TableOk(t, names);
      FindRegistered(t, names, que[k]);
    }
  }

  lemma SaveSame(s: System, names: seq<Word>)
    requires Runs.Inv(s, names)
    ensures 0 <= s.current < |s.proc| && SaveRegs(s, s.proc[s.current].regs) == s
  {
    assert s.proc[s.current := s.proc[s.current]] == s.proc;
  }

  lemma FindBoth(s: System, names: seq<Word>, a: Word, b: Word)
    requires Runs.Inv(s, names) && a in names && b in names
    ensures Find(s.proc, a).At? && Find(s.proc, b).At? && TableOk(s.proc, names)
  {
    FindRegistered(s.proc, names, a);
    FindRegistered(s.proc, names, b);
    assert names[IndexOf(names, a)] == a && names[IndexOf(names, b)] == b;
  }

  /** yield keeps blocked processes asleep, given another to run. */
  lemma YieldQueues(s: System, names: seq<Word>)
    requires Mid(s, names) && QueuesOk(s, names)
    requires s.proc[s.current].isWaitMsg == 1 ==> AnotherReady(s, names)
    ensures Yield(s).Done? && TableOk(Yield(s).sys.proc, names) && QueuesOk(Yield(s).sys, names)
    ensures forall i: nat :: i < |s.proc| ==> Yield(s).sys.proc[i] == s.proc[i].(state := Yield(s).sys.proc[i].state)
    ensures forall i: nat :: i < |names| && s.proc[i].isWaitMsg == 1 ==> Yield(s).sys.proc[i].state == Sleeping
  {
    hide NamedOnce, NamedWait, Passed;
    YieldKeeps(s, names);
    if s.proc[s.current].isWaitMsg == 1 {
      var x: nat :| x < |names| && s.proc[x].state == Runnable;
      assert SlotOk(s.proc[x], x, names, |s.proc|);
      ScheduleRank(s, x);
    }
    EntriesKept(s, Yield(s).sys, names);
  }

  /** A trap that respects the discipline does not panic and keeps the queues in order. */
  lemma StepQueues(s: System, e: Event, names: seq<Word>)
    requires Runs.Inv(s, names) && QueuesOk(s, names) && Respects(s, e, names)
    ensures Step(s, e).Done? && Runs.Inv(Step(s, e).sys, names) && QueuesOk(Step(s, e).sys, names)
  {
    hide IpcCall, Yield, NamedOnce, NamedWait, AnotherReady;
    var s0 := SaveRegs(s, e.regs);
    SavedQueues(s, names, e);
    StepKeeps(s, e, names);
    if e.Ecall? {
      CallQueues(s0, names, e);
      CallKeeps(s0, names, e.mapped);
      CallBlocks(s0, names, e);
      var s1 := IpcCall(s0, e.mapped).sys;
      if s1.proc[s1.current].state == Sleeping {
        YieldQueues(s1, names);
      }
    } else {
      YieldQueues(s0, names);
    }
  }

  /** Saving the registers changes nothing the discipline looks at. */
  lemma SavedQueues(s: System, names: seq<Word>, e: Event)
    requires Runs.Inv(s, names) && QueuesOk(s, names)
    ensures var s0 := SaveRegs(s, e.regs);
            && Runs.Inv(s0, names) && QueuesOk(s0, names) && s0.proc[s0.current].regs == e.regs
            && (Courteous(s, e, names) <==> Courteous(s0, e, names))
            && (forall q: nat, k: nat, w: Word :: Holds(s0, q, k, w) == Holds(s, q, k, w))
            && (forall p: nat :: p < |s.proc| && p != s.current ==> s0.proc[p] == s.proc[p])
  {
    hide NamedOnce, NamedWait, Courteous;
    var s0 := SaveRegs(s, e.regs);
    assert Runs.Inv(s0, names);
    EntriesKept(s, s0, names);
    SavedCourtesy(s, s0, names, e);
  }

  lemma SavedCourtesy(s: System, s0: System, names: seq<Word>, e: Event)
    requires Runs.Inv(s, names) && Runs.Inv(s0, names) && s0 == SaveRegs(s, e.regs)
    ensures Courteous(s, e, names) <==> Courteous(s0, e, names)
  {
    hide IpcCall, AnotherReady, NotQueued;
    assert SaveRegs(s0, e.regs) == s0;
    SavedNotQueued(s, s0, names, e.regs.a6);
    assert forall x: nat :: x < |names| ==>
             s0.proc[x].state == s.proc[x].state && s0.proc[x].isWaitMsg == s.proc[x].isWaitMsg;
    SameReady(s, s0, names);
  }

  lemma SavedNotQueued(s: System, s0: System, names: seq<Word>, name: Word)
    requires |names| <= |s.proc| == |s0.proc| && forall q: nat :: q < |names| ==> s0.proc[q].que == s.proc[q].que
    ensures NotQueued(s, name, names) <==> NotQueued(s0, name, names)
  {
    assert forall q: nat, k: nat :: q < |names| ==> Holds(s0, q, k, name) == Holds(s, q, k, name);
    if NotQueued(s, name, names) {
      forall q: nat, k: nat | q < |names| ensures !Holds(s0, q, k, name) {
        assert !Holds(s, q, k, name);
      }
    }
    if NotQueued(s0, name, names) {
      forall q: nat, k: nat | q < |names| ensures !Holds(s, q, k, name) {
        assert !Holds(s0, q, k, name);
      }
    }
  }

  // ---------------------------------------------------------------- whoever waits, waits somewhere

  ghost predicate QueuedAt(s: System, q: nat, name: Word) {
    exists k: nat :: Holds(s, q, k, name)
  }

  /** p waits because of its last call: as a sender, queued at its destination, or as a receiver with an empty queue. */
  ghost predicate Placed(s: System, names: seq<Word>, p: nat)
    requires p < |s.proc| && p < |names|
  {
    var r := s.proc[p].regs;
    || (r.a7 == 0 && r.a6 in names && QueuedAt(s, IndexOf(names, r.a6), names[p]))
    || (r.a7 == 1 && EmptyQueue(s, p))
  }

  /** Every process that waits for a message is placed. */
  ghost predicate WaitersPlaced(s: System, names: seq<Word>)
    requires TableOk(s.proc, names)
  {
    forall p: nat {:trigger Placed(s, names, p)} :: p < |names| && s.proc[p].isWaitMsg == 1 ==> Placed(s, names, p)
  }

  /** Who waited and still waits is placed if its name has not left a queue and none has come to it. */
  lemma PlacedKept(s: System, t: System, names: seq<Word>, p: nat)
    requires p < |names| <= |s.proc| == |t.proc| && Placed(s, names, p) && t.proc[p].regs == s.proc[p].regs
    requires forall q: nat, k: nat {:trigger Holds(t, q, k, names[p])} ::
               Holds(s, q, k, names[p]) ==> Holds(t, q, k, names[p])
    requires t.proc[p].que == s.proc[p].que
    ensures Placed(t, names, p)
  {
    var r := s.proc[p].regs;
    if r.a7 == 0 && r.a6 in names && QueuedAt(s, IndexOf(names, r.a6), names[p]) {
      var k: nat :| Holds(s, IndexOf(names, r.a6), k, names[p]);
      assert Holds(t, IndexOf(names, r.a6), k, names[p]);
    }
  }

  lemma SendPlaced(s: System, names: seq<Word>)
    requires Runs.Inv(s, names) && QueuesOk(s, names) && WaitersPlaced(s, names) && Send(s).Done?
    requires var r := s.proc[s.current].regs; r.a7 == 0 && r.a6 in names
    requires TableOk(Send(s).sys.proc, names)
    ensures WaitersPlaced(Send(s).sys, names)
  {
    hide NamedOnce, NamedWait, Placed, WaitersSleep;
    var cur, r, t := s.current, s.proc[s.current].regs, Send(s).sys;
    var d := IndexOf(names, r.a6);
    FindRegistered(s.proc, names, r.a6);
    NotWaiting(s, names);
    forall p: nat | p < |names| && t.proc[p].isWaitMsg == 1 ensures Placed(t, names, p) {
      if p == cur {
        SenderPlaced(s, names, d);
      } else {
        assert Placed(s, names, p);
        SleepsIfWaits(s, names, p);
        PlacedKept(s, t, names, p);
      }
    }
  }

  lemma SleepsIfWaits(s: System, names: seq<Word>, p: nat)
    requires TableOk(s.proc, names) && WaitersSleep(s, names) && p < |names| && s.proc[p].isWaitMsg == 1
    ensures s.proc[p].state == Sleeping
  {
  }

  /** A sender that waits has just been queued. */
  lemma SenderPlaced(s: System, names: seq<Word>, d: nat)
    requires Runs.Inv(s, names) && s.proc[s.current].isWaitMsg != 1 && Send(s).Done? && d < |names|
    requires var r := s.proc[s.current].regs; r.a7 == 0 && r.a6 in names && d == IndexOf(names, r.a6)
    requires Find(s.proc, s.proc[s.current].regs.a6) == At(d) && Send(s).sys.proc[s.current].isWaitMsg == 1
    ensures Placed(Send(s).sys, names, s.current)
  {
    assert SlotOk(s.proc[s.current], s.current, names, |s.proc|);
    assert Holds(Send(s).sys, d, FirstZero(s.proc[d].que, 0), names[s.current]);
  }

  lemma RecvPlaced(s: System, names: seq<Word>)
    requires Runs.Inv(s, names) && QueuesOk(s, names) && WaitersPlaced(s, names) && Recv(s).Done?
    requires s.proc[s.current].regs.a7 == 1 && TableOk(Recv(s).sys.proc, names)
    ensures WaitersPlaced(Recv(s).sys, names)
  {
    hide NamedOnce, NamedWait, Placed, WaitersSleep, Find;
    var cur, que, t := s.current, s.proc[s.current].que, Recv(s).sys;
    var k := FirstNonZero(que, 0);
    NotWaiting(s, names);
    if k < |que| {
      RecvSource(s, names);
      var u := s.proc[cur := s.proc[cur].(que := Put(que, k, 0))];
      assert TableOk(u, names);
      FindRegistered(u, names, que[k]);
    }
    forall p: nat | p < |names| && t.proc[p].isWaitMsg == 1 ensures Placed(t, names, p) {
      if p == cur {
        ReceiverPlaced(s, names);
      } else {
        assert Placed(s, names, p);
        PlacedKept(s, t, names, p);
      }
    }
  }

  lemma ReceiverPlaced(s: System, names: seq<Word>)
    requires Runs.Inv(s, names) && s.proc[s.current].regs.a7 == 1
    requires FirstNonZero(s.proc[s.current].que, 0) == |s.proc[s.current].que|
    ensures Recv(s).Done? && Placed(Recv(s).sys, names, s.current)
  {
  }

  /** A change of states only. */
  lemma SamePlaced(s: System, t: System, names: seq<Word>)
    requires TableOk(s.proc, names) && TableOk(t.proc, names) && WaitersPlaced(s, names) && |t.proc| == |s.proc|
    requires forall p: nat :: p < |s.proc| ==> t.proc[p] == s.proc[p].(state := t.proc[p].state)
    ensures WaitersPlaced(t, names)
  {
    hide Placed;
    forall p: nat | p < |names| && t.proc[p].isWaitMsg == 1 ensures Placed(t, names, p) {
      assert Placed(s, names, p);
      PlacedKept(s, t, names, p);
    }
  }

  lemma CallPlaced(s: System, names: seq<Word>, e: Event)
    requires Runs.Inv(s, names) && QueuesOk(s, names) && WaitersPlaced(s, names)
    requires e.Ecall? && s.proc[s.current].regs == e.regs && Resolves(e, names)
    requires IpcCall(s, e.mapped).Done? && TableOk(IpcCall(s, e.mapped).sys.proc, names)
    ensures WaitersPlaced(IpcCall(s, e.mapped).sys, names)
  {
    hide Send, Recv, Find, NamedOnce, NamedWait, WaitersSleep, Placed, QueuesOk;
    if e.regs.a7 == 0 {
      SendPlaced(s, names);
    } else if e.regs.a7 == 1 {
      RecvPlaced(s, names);
    } else {
      SamePlaced(s, IpcCall(s, e.mapped).sys, names);
    }
  }

  /** A trap that respects the discipline leaves every waiting process placed. */
  lemma StepPlaced(s: System, e: Event, names: seq<Word>)
    requires Runs.Inv(s, names) && QueuesOk(s, names) && WaitersPlaced(s, names) && Respects(s, e, names)
    ensures Step(s, e).Done? && Runs.Inv(Step(s, e).sys, names) && QueuesOk(Step(s, e).sys, names)
    ensures WaitersPlaced(Step(s, e).sys, names)
  {
    hide IpcCall, Yield, NamedOnce, NamedWait, AnotherReady, Placed, WaitersSleep, SendsRight, WakesRight, BlocksRight;
    var s0 := SaveRegs(s, e.regs);
    SavedQueues(s, names, e);
    StepQueues(s, e, names);
    SavedPlaced(s, names, e.regs);
    if e.Ecall? {
      CallQueues(s0, names, e);
      CallKeeps(s0, names, e.mapped);
      CallPlaced(s0, names, e);
      var s1 := IpcCall(s0, e.mapped).sys;
      if s1.proc[s1.current].state == Sleeping {
        YieldPlaced(s1, names);
      }
    } else {
      YieldPlaced(s0, names);
    }
  }

  lemma YieldPlaced(s: System, names: seq<Word>)
    requires Mid(s, names) && WaitersPlaced(s, names)
    ensures Yield(s).Done? && TableOk(Yield(s).sys.proc, names) && WaitersPlaced(Yield(s).sys, names)
  {
    hide Schedule, Placed;
    YieldKeeps(s, names);
    SamePlaced(s, Yield(s).sys, names);
  }

  lemma SavedPlaced(s: System, names: seq<Word>, r: Regs)
    requires Runs.Inv(s, names) && QueuesOk(s, names) && WaitersPlaced(s, names)
    ensures var s0 := SaveRegs(s, r);
            TableOk(s0.proc, names) && WaitersPlaced(s0, names)
  {
    hide Placed;
    NotWaiting(s, names);
    var s0 := SaveRegs(s, r);
    forall p: nat | p < |names| && s0.proc[p].isWaitMsg == 1 ensures Placed(s0, names, p) {
      assert Placed(s, names, p);
      PlacedKept(s, s0, names, p);
    }
  }

  // ---------------------------------------------------------------- the discipline is exactly what is needed

  /** yield changes no queue and no wait flag. */
  lemma YieldNamed(s: System, names: seq<Word>)
    requires Mid(s, names)
    ensures Yield(s).Done? && TableOk(Yield(s).sys.proc, names)
            && (NamedWait(Yield(s).sys, names) <==> NamedWait(s, names))
  {
    YieldKeeps(s, names);
    YieldFrame(s);
    hide Yield, Schedule;
    var s' := Yield(s).sys;
    if !NamedWait(s, names) {
      var q: nat, k: nat, w: Word :| q < |names| && w != 0 && Holds(s, q, k, w) && !(w in names
          && s.proc[IndexOf(names, w)].isWaitMsg == 1);
      assert Holds(s', q, k, w);
    }
    if !NamedWait(s', names) {
      var q: nat, k: nat, w: Word :| q < |names| && w != 0 && Holds(s', q, k, w) && !(w in names
          && s'.proc[IndexOf(names, w)].isWaitMsg == 1);
      assert Holds(s, q, k, w);
    }
  }

  /** A send to a sleeping sender takes its wait flag while its name stays in a queue. */
  lemma SendBreaks(s: System, names: seq<Word>)
    requires Runs.Inv(s, names) && QueuesOk(s, names)
    requires var r := s.proc[s.current].regs; r.a7 == 0 && r.a6 in names && !SendsRight(s, r, names)
    ensures Send(s).Done? && Mid(Send(s).sys, names) && Send(s).sys.proc[s.current].state == Sleeping
    ensures !NamedWait(Send(s).sys, names)
  {
    hide NamedOnce;
    var r := s.proc[s.current].regs;
    FindRegistered(s.proc, names, r.a6);
    SendKeeps(s, names);
    var d: nat :| d < |names| && names[d] == r.a6 && s.proc[d].state == Sleeping && !NotQueued(s, r.a6, names);
    var q: nat, k: nat :| q < |names| && Holds(s, q, k, names[d]);
    assert SlotOk(s.proc[d], d, names, |s.proc|) && SlotOk(s.proc[q], q, names, |s.proc|);
    IndexIs(s.proc, names, d);
    assert Holds(Send(s).sys, q, k, names[d]);
  }

  /** A wakeup of a process that waits for a message leaves it ready and waiting. */
  lemma WakeupBreaks(s: System, names: seq<Word>)
    requires Runs.Inv(s, names) && QueuesOk(s, names)
    requires var r := s.proc[s.current].regs; r.a7 == 5 && r.a0 in names && !WakesRight(s, r, names)
    ensures var c := SetState(s, s.proc[s.current].regs.a0, Runnable);
            c.Done? && Mid(c.sys, names) && c.sys.proc[s.current].state != Sleeping && !WaitersSleep(c.sys, names)
  {
    hide NamedOnce, NamedWait;
    var r := s.proc[s.current].regs;
    FindRegistered(s.proc, names, r.a0);
    SetStateKeeps(s, names, r.a0, Runnable);
    var x: nat :| x < |names| && names[x] == r.a0 && s.proc[x].isWaitMsg == 1;
    assert Find(s.proc, r.a0) == At(x) && s.proc[x].state == Sleeping;
    var c := SetState(s, r.a0, Runnable).sys;
    assert c.proc[x].isWaitMsg == 1 && c.proc[x].state == Runnable;
  }

  /** With nobody else to run, the process that blocked goes on running. */
  lemma LoneBlockBreaks(s: System, names: seq<Word>)
    requires Mid(s, names) && !AnotherReady(s, names) && s.proc[s.current].isWaitMsg == 1
             && s.proc[s.current].state == Sleeping
    ensures Yield(s).Done? && TableOk(Yield(s).sys.proc, names) && !WaitersSleep(Yield(s).sys, names)
  {
    YieldKeeps(s, names);
    forall i: nat | i < |s.proc| ensures !Eligible(s.proc[i]) {
      assert SlotOk(s.proc[i], i, names, |s.proc|);
    }
    assert Schedule(s).next == s.current;
    assert Yield(s).sys.proc[s.current].state == Running;
  }

  /** A discourteous call breaks the order of the queues. */
  lemma DiscourteousBreaks(s: System, e: Event, names: seq<Word>)
    requires Runs.Inv(s, names) && QueuesOk(s, names) && e.Ecall? && s.proc[s.current].regs == e.regs
             && Resolves(e, names)
    requires SaveRegs(s, e.regs) == s && !Courteous(s, e, names)
    ensures Step(s, e).Done? && Runs.Inv(Step(s, e).sys, names) && !QueuesOk(Step(s, e).sys, names)
  {
    hide NamedOnce, NamedWait, AnotherReady, Send, Recv, SetState, Yield, SendsRight, WakesRight, NotQueued, TableOk,
        WaitersSleep;
    SaveSame(s, names);
    StepKeeps(s, e, names);
    CallKeeps(s, names, e.mapped);
    if !SendsRight(s, e.regs, names) {
      NotSend(s, e.regs, names);
      SendBreaks(s, names);
      YieldNamed(Send(s).sys, names);
    } else if !WakesRight(s, e.regs, names) {
      NotWake(s, e.regs, names);
      WakeupBreaks(s, names);
    } else {
      CallQueues(s, names, e);
      CallBlocks(s, names, e);
      LoneBlockBreaks(IpcCall(s, e.mapped).sys, names);
    }
  }

  lemma NotSend(s: System, r: Regs, names: seq<Word>)
    requires TableOk(s.proc, names)
    ensures r.a7 != 0 ==> SendsRight(s, r, names)
  {
  }

  lemma NotWake(s: System, r: Regs, names: seq<Word>)
    requires TableOk(s.proc, names)
    ensures r.a7 != 5 ==> WakesRight(s, r, names)
  {
  }

  /** From queues in order, no trap whose call and names exist panics, and the queues stay in order exactly if it is
      courteous. */
  lemma DisciplineExact(s: System, e: Event, names: seq<Word>)
    requires Runs.Inv(s, names) && QueuesOk(s, names) && Resolves(e, names)
    ensures Step(s, e).Done? && Runs.Inv(Step(s, e).sys, names)
    ensures QueuesOk(Step(s, e).sys, names) <==> Courteous(s, e, names)
  {
    hide Step, QueuesOk, SendsRight, WakesRight, BlocksRight, Runs.Inv;
    if Courteous(s, e, names) {
      StepQueues(s, e, names);
    } else {
      SaveSame(s, names);
      var s0 := SaveRegs(s, e.regs);
      SavedQueues(s, names, e);
      SaveTwice(s, e, names);
      DiscourteousBreaks(s0, e, names);
    }
  }

  lemma SaveTwice(s: System, e: Event, names: seq<Word>)
    requires Runs.Inv(s, names) && e.Ecall?
    ensures var s0 := SaveRegs(s, e.regs);
            0 <= s.current < |s.proc| && SaveRegs(s0, e.regs) == s0 && Step(s0, e) == Step(s, e)
  {
    hide IpcCall, Yield;
  }

  // ---------------------------------------------------------------- disciplined runs

  /** A run in which every trap respects the discipline. */
  ghost predicate DisciplinedRun(states: seq<System>, events: seq<Event>, names: seq<Word>) {
    && Run(states, events, names)
    && (forall k: nat {:trigger events[k]} :: k < |events| ==> Runs.Inv(states[k], names) ==>
       Respects(states[k], events[k], names))
  }

  /** In a disciplined run, in every state: whoever is named in a queue waits, and is named once; whoever waits sleeps,
      and is either queued at the destination of its send or a receiver with an empty queue. */
  lemma {:induction false} RunQueues(states: seq<System>, events: seq<Event>, names: seq<Word>, k: nat)
    requires DisciplinedRun(states, events, names) && k < |states|
    ensures Runs.Inv(states[k], names) && QueuesOk(states[k], names) && WaitersPlaced(states[k], names)
  {
    hide QueuesOk, Step, Respects, WaitersPlaced, Runs.Inv, DisciplinedRun;
    if k == 0 {
      RunStart(states, events, names);
    } else {
      RunQueues(states, events, names, k - 1);
      RespectfulStep(states, events, names, k - 1);
      StepPlaced(states[k - 1], events[k - 1], names);
    }
  }

  lemma RespectfulStep(states: seq<System>, events: seq<Event>, names: seq<Word>, k: nat)
    requires DisciplinedRun(states, events, names) && k + 1 < |states|
    ensures |states| == |events| + 1 && Runs.Inv(states[k], names) && Runs.Inv(states[k + 1], names)
    ensures Respects(states[k], events[k], names) && Step(states[k], events[k]) == Done(states[k + 1])
  {
    hide Step, Respects, Runs.Inv;
    RunStep(states, events, names, k);
  }

  lemma RunStart(states: seq<System>, events: seq<Event>, names: seq<Word>)
    requires DisciplinedRun(states, events, names)
    ensures Runs.Inv(states[0], names) && QueuesOk(states[0], names) && WaitersPlaced(states[0], names)
  {
    hide QueuesOk, Yield, WaitersPlaced;
    RunInv(states, events, names, 0);
    var b :| Booted(b, names) && |b.proc| > 0 && Yield(b) == Done(states[0]);
    BootStarts(b, names);
    BootQueues(b, names);
  }

  lemma BootQueues(b: System, names: seq<Word>)
    requires Booted(b, names) && |b.proc| > 0 && Yield(b).Done? && Runs.Inv(Yield(b).sys, names)
    ensures QueuesOk(Yield(b).sys, names) && WaitersPlaced(Yield(b).sys, names)
  {
    var s := Yield(b).sys;
    forall q: nat, k: nat, w: Word | q < |names| && w != 0 ensures !Holds(s, q, k, w) {
      assert SlotOk(b.proc[q], q, names, |b.proc|);
    }
  }

  /** Each blocked sender sits in exactly one queue, its destination's, exactly once. */
  lemma BlockedSenderQueued(states: seq<System>, events: seq<Event>, names: seq<Word>, k: nat, p: nat)
    requires DisciplinedRun(states, events, names) && k < |states| && p < |names|
    requires p < |states[k].proc| && states[k].proc[p].isWaitMsg == 1 && states[k].proc[p].regs.a7 == 0
    ensures states[k].proc[p].state == Sleeping && states[k].proc[p].regs.a6 in names
    ensures exists l: nat :: Holds(states[k], IndexOf(names, states[k].proc[p].regs.a6), l, names[p])
                             && forall q: nat, m: nat :: q < |names| && Holds(states[k], q, m, names[p]) ==>
                                  q == IndexOf(names, states[k].proc[p].regs.a6) && m == l
  {
    hide DisciplinedRun, NamedWait;
    RunQueues(states, events, names, k);
    var s := states[k];
    assert Placed(s, names, p);
    var d := IndexOf(names, s.proc[p].regs.a6);
    var l: nat :| Holds(s, d, l, names[p]);
    forall q: nat, m: nat | q < |names| && Holds(s, q, m, names[p]) ensures q == d && m == l {
      assert Holds(s, d, l, names[p]);
    }
  }

  lemma DisciplinedStep(states: seq<System>, events: seq<Event>, names: seq<Word>, k: nat)
    requires DisciplinedRun(states, events, names) && k + 1 < |states|
    ensures Runs.Inv(states[k], names) && QueuesOk(states[k], names) && Respects(states[k], events[k], names)
    ensures 0 <= states[k].current < |names| <= |states[k].proc| == |states[k + 1].proc| && |events| + 1 == |states|
    ensures Step(states[k], events[k]) == Done(states[k + 1])
  {
    hide Step, Respects, QueuesOk;
    RunQueues(states, events, names, k);
    RunStep(states, events, names, k);
  }
}
