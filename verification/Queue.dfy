/** The sender queue of an ipc block: a bag of names in an array of slots (add_que and extract_que in ipc.c). */
module Queue {
  import opened Riscv
  import opened Process

  /** The names in the queue, with their multiplicities. */
  ghost function Bag(que: seq<Word>): multiset<Word> {
    multiset(que)[0 := 0]
  }

  /** Adding inserts one name. */
  lemma AddBag(que: seq<Word>, name: Word)
    requires name != 0 && FirstZero(que, 0) < |que|
    ensures Bag(que[FirstZero(que, 0) := name]) == Bag(que) + multiset{name}
  {
    var k := FirstZero(que, 0);
    assert que == que[..k] + [0] + que[k + 1..];
    assert que[k := name] == que[..k] + [name] + que[k + 1..];
  }

  lemma EmptyBag(que: seq<Word>)
    requires forall k :: 0 <= k < |que| ==> que[k] == 0
    ensures Bag(que) == multiset{}
  {
    forall w: Word ensures Bag(que)[w] == 0 {
      if w != 0 { assert w !in que; }
    }
  }

  /** Slot k of a queue, emptied. */
  lemma ClearedBag(que: seq<Word>, k: nat)
    requires k < |que| && que[k] != 0
    ensures que[k] in Bag(que) && Bag(que[k := 0]) == Bag(que) - multiset{que[k]}
  {
    assert que == que[..k] + [que[k]] + que[k + 1..];
    assert que[k := 0] == que[..k] + [0] + que[k + 1..];
    assert que[k] in multiset(que);
  }

  /** Extracting removes the name it returns; there is none exactly if the bag is empty. */
  lemma ExtractBag(que: seq<Word>)
    ensures FirstNonZero(que, 0) == |que| <==> Bag(que) == multiset{}
    ensures var k := FirstNonZero(que, 0);
            k < |que| ==> que[k] in Bag(que) && Bag(que[k := 0]) == Bag(que) - multiset{que[k]}
  {
    hide Bag;
    var k := FirstNonZero(que, 0);
    if k < |que| {
      ClearedBag(que, k);
    } else {
      EmptyBag(que);
    }
  }

  // ---------------------------------------------------------------- order

  /** The names in slot order, which is the order in which extraction returns them. */
  function Entries(que: seq<Word>): seq<Word> {
    if que == [] then []
    else if que[0] == 0 then Entries(que[1..])
    else [que[0]] + Entries(que[1..])
  }

  lemma {:induction false} EntriesConcat(a: seq<Word>, b: seq<Word>)
    ensures Entries(a + b) == Entries(a) + Entries(b)
  {
    hide Entries;
    if a == [] {
      assert a + b == b;
      assert Entries(a) + Entries(b) == Entries(b) by { EntriesNone(); }
    } else {
      EntriesConcat(a[1..], b);
      EntriesCons(a);
      EntriesCons(a + b);
      TailConcat(a, b);
      Regroup(if a[0] == 0 then [] else [a[0]], Entries(a[1..]), Entries(b));
    }
  }

  lemma EntriesNone()
    ensures Entries([]) == []
  {
  }

  lemma TailConcat(a: seq<Word>, b: seq<Word>)
    requires a != []
    ensures a + b != [] && (a + b)[1..] == a[1..] + b && (a + b)[0] == a[0]
  {
  }

  lemma Regroup(p: seq<Word>, a: seq<Word>, b: seq<Word>)
    ensures (p + a) + b == p + (a + b)
  {
  }

  lemma EntriesCons(que: seq<Word>)
    requires que != []
    ensures Entries(que) == (if que[0] == 0 then [] else [que[0]]) + Entries(que[1..])
  {
  }

  lemma {:induction false} EntriesMembers(que: seq<Word>)
    ensures forall w :: w in Entries(que) ==> w in que && w != 0
    ensures Entries(que) == [] <==> forall j :: 0 <= j < |que| ==> que[j] == 0
  {
    if que != [] {
      EntriesMembers(que[1..]);
      assert forall j :: 0 < j < |que| ==> que[j] == que[1..][j - 1];
    }
  }

  /** Extraction returns the first entry and leaves the others in order. */
  lemma ExtractEntries(que: seq<Word>)
    ensures var k := FirstNonZero(que, 0);
            if k == |que| then Entries(que) == [] else Entries(que) == [que[k]] + Entries(que[k := 0])
  {
    var k := FirstNonZero(que, 0);
    if k == |que| {
      EntriesMembers(que);
    } else {
      Around(que, k, que[k]);
      Around(que, k, 0);
      EntriesMembers(que[..k]);
      assert que[k := que[k]] == que;
    }
  }

  lemma Around(que: seq<Word>, k: nat, w: Word)
    requires k < |que|
    ensures Entries(que[k := w]) == Entries(que[..k]) + (if w == 0 then [] else [w]) + Entries(que[k + 1..])
  {
    assert que[k := w] == que[..k] + ([w] + que[k + 1..]);
    EntriesConcat(que[..k], [w] + que[k + 1..]);
    EntriesConcat([w], que[k + 1..]);
  }

  /** No name but the given one occurs. */
  predicate Only(que: seq<Word>, name: Word) {
    forall j :: 0 <= j < |que| ==> que[j] == 0 || que[j] == name
  }

  lemma OnlyStep(que: seq<Word>, name: Word)
    requires que != []
    ensures Only(que, name) <==> (que[0] == 0 || que[0] == name) && Only(que[1..], name)
  {
    assert forall j :: 0 < j < |que| ==> que[j] == que[1..][j - 1];
    assert forall j :: 0 <= j < |que[1..]| ==> que[1..][j] == que[j + 1];
  }

  lemma {:induction false} EntriesOnly(que: seq<Word>, name: Word)
    ensures Only(Entries(que), name) <==> Only(que, name)
  {
    hide Only;
    if que != [] {
      OnlyStep(que, name);
      EntriesOnly(que[1..], name);
      if que[0] != 0 {
        OnlyStep(Entries(que), name);
        assert Entries(que)[1..] == Entries(que[1..]);
      }
    } else {
      assert Entries(que) == que;
    }
  }

  /** Moving a name from the front of a sequence to its end changes nothing exactly if all of it is that name. */
  lemma {:induction false} Rotated(after: seq<Word>, name: Word)
    requires 0 !in after
    ensures [name] + after == after + [name] <==> Only(after, name)
  {
    if after != [] {
      hide Only;
      var rest := after[1..];
      Rotated(rest, name);
      OnlyStep(after, name);
      assert after[0] in after;
      assert ([name] + after)[1..] == after && (after + [name])[1..] == rest + [name];
      assert ([name] + after)[0] == name && (after + [name])[0] == after[0];
      if after[0] == name {
        assert [name] + rest == after && after + [name] == [name] + (rest + [name]);
      }
    }
  }

  /** Adding keeps arrival order exactly if nothing lies beyond the first free slot but the added name itself. */
  lemma AddKeepsOrder(que: seq<Word>, name: Word)
    requires name != 0 && FirstZero(que, 0) < |que|
    ensures var k := FirstZero(que, 0);
            Entries(que[k := name]) == Entries(que) + [name] <==>
              forall j :: k < j < |que| ==> que[j] == 0 || que[j] == name
  {
    hide Entries;
    var k := FirstZero(que, 0);
    var before, after := Entries(que[..k]), Entries(que[k + 1..]);
    Around(que, k, name);
    Around(que, k, 0);
    assert que[k := 0] == que;
    EntriesMembers(que[k + 1..]);
    EntriesOnly(que[k + 1..], name);
    BeyondOnly(que, k, name);
    Rotated(after, name);
    SamePrefix(before, [name] + after, after + [name]);
    assert before + [name] + after == before + ([name] + after);
    assert before + after + [name] == before + (after + [name]);
  }

  lemma BeyondOnly(que: seq<Word>, k: nat, name: Word)
    requires k < |que|
    ensures Only(que[k + 1..], name) <==> forall j :: k < j < |que| ==> que[j] == 0 || que[j] == name
  {
    var rest := que[k + 1..];
    assert forall j :: k < j < |que| ==> que[j] == rest[j - k - 1];
    assert forall j :: 0 <= j < |rest| ==> rest[j] == que[j + (k + 1)];
  }

  lemma SamePrefix(a: seq<Word>, b: seq<Word>, c: seq<Word>)
    ensures a + b == a + c <==> b == c
  {
    assert (a + b)[|a|..] == b && (a + c)[|a|..] == c;
  }

  /** add_que for each name in turn; what does not fit is dropped (the kernel would panic). */
  function AddAll(que: seq<Word>, names: seq<Word>): seq<Word>
    decreases |names|
  {
    if names == [] || FirstZero(que, 0) == |que| then que
    else
      var que': seq<Word> := que[FirstZero(que, 0) := names[0]];
      AddAll(que', names[1..])
  }

  /** What k calls of extract_que return. */
  function ExtractAll(que: seq<Word>, k: nat): seq<Word>
    decreases k
  {
    if k == 0 || FirstNonZero(que, 0) == |que| then []
    else
      var j := FirstNonZero(que, 0);
      var que': seq<Word> := que[j := 0];
      [que[j]] + ExtractAll(que', k - 1)
  }

  ghost predicate Packed(que: seq<Word>) {
    forall j :: FirstZero(que, 0) < j < |que| ==> que[j] == 0
  }

  lemma {:induction false} FirstZeroOf(que: seq<Word>, k: nat, i: nat)
    requires i <= k <= |que| && (forall j :: 0 <= j < k ==> que[j] != 0) && (k < |que| ==> que[k] == 0)
    ensures FirstZero(que, i) == k
    decreases k - i
  {
    if i < k {
      FirstZeroOf(que, k, i + 1);
    }
  }

  /** One addition to a queue without gaps. */
  lemma PackedStep(que: seq<Word>, name: Word)
    requires Packed(que) && FirstZero(que, 0) < |que| && name != 0
    ensures var k, que' := FirstZero(que, 0), que[FirstZero(que, 0) := name];
            && Packed(que') && FirstZero(que', 0) == k + 1 && Entries(que') == Entries(que) + [name]
  {
    var k := FirstZero(que, 0);
    FirstZeroOf(que[k := name], k + 1, 0);
    Around(que, k, name);
    Around(que, k, 0);
    assert que[k := 0] == que;
    EntriesMembers(que[k + 1..]);
  }

  /** Additions to a queue without gaps append, as far as there is room. */
  lemma {:induction false} AddAllEntries(que: seq<Word>, names: seq<Word>)
    requires Packed(que) && FirstZero(que, 0) + |names| <= |que|
    requires forall j :: 0 <= j < |names| ==> names[j] != 0
    ensures Entries(AddAll(que, names)) == Entries(que) + names
    decreases |names|
  {
    hide Packed, Entries;
    if names != [] {
      PackedStep(que, names[0]);
      AddAllEntries(que[FirstZero(que, 0) := names[0]], names[1..]);
      assert Entries(que) + [names[0]] + names[1..] == Entries(que) + names;
    } else {
      assert Entries(que) + names == Entries(que);
    }
  }

  lemma {:induction false} ExtractAllEntries(que: seq<Word>, k: nat)
    requires k <= |Entries(que)|
    ensures ExtractAll(que, k) == Entries(que)[..k]
    decreases k
  {
    if k > 0 {
      ExtractEntries(que);
      var j := FirstNonZero(que, 0);
      var que': seq<Word> := que[j := 0];
      ExtractAllEntries(que', k - 1);
    }
  }

  /** From a drained queue, up to N additions followed by as many extractions return the names in arrival order. */
  lemma DrainedQueueIsFifo(que: seq<Word>, names: seq<Word>)
    requires (forall j :: 0 <= j < |que| ==> que[j] == 0) && |names| <= |que|
    requires forall j :: 0 <= j < |names| ==> names[j] != 0
    ensures ExtractAll(AddAll(que, names), |names|) == names
  {
    if que != [] {
      FirstZeroOf(que, 0, 0);
    }
    EntriesMembers(que);
    AddAllEntries(que, names);
    assert Entries(que) + names == names;
    ExtractAllEntries(AddAll(que, names), |names|);
  }

  /** In general the queue is no FIFO: 7 and 8 arrive, 7 leaves, 9 arrives and overtakes 8. */
  lemma NotFifo()
    ensures AddAll([0, 0, 0], [7, 8]) == [7, 8, 0] && FirstNonZero([7, 8, 0], 0) == 0
    ensures ExtractAll(AddAll([0, 8, 0], [9]), 2) == [9, 8]
  {
    var e: seq<Word> := [0, 0, 0];
    FirstZeroOf(e, 0, 0);
    var e1: seq<Word> := [7, 0, 0];
    assert e[0 := 7] == e1;
    FirstZeroOf(e1, 1, 0);
    var q: seq<Word> := [7, 8, 0];
    assert e1[1 := 8] == q;
    assert AddAll(e, [7, 8]) == q by {
      assert [7, 8][1..] == [8] && [8][1..] == [];
    }
    assert FirstNonZero(q, 0) == 0;
    var q': seq<Word> := [0, 8, 0];
    assert q[0 := 0] == q';
    FirstZeroOf(q', 0, 0);
    var r: seq<Word> := [9, 8, 0];
    assert q'[0 := 9] == r;
    assert AddAll(q', [9]) == r by { assert [9][1..] == []; }
    assert Entries(r) == [9, 8] by {
      assert r[1..] == [8, 0] && [8, 0][1..] == [0] && [0][1..] == [];
    }
    ExtractAllEntries(r, 2);
  }
}
