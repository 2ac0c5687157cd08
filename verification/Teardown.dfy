/** Taking a tree down: which tables lie below a table, and what one round of freewalk does to them. */
module Teardown {
  import opened Riscv
  import opened PageTable
  import opened Translation
  import opened Ownership

  predicate ChildOf(role: map<nat, Role>, q: nat, p: nat) {
    q in role && role[q].Table? && role[q].level < 2 && role[q].parent == p
  }

  predicate GrandchildOf(role: map<nat, Role>, q: nat, p: nat) {
    q in role && role[q].Table? && role[q].level < 2 && ChildOf(role, role[q].parent, p)
  }

  /** q is p or a table below it; trees have three levels. */
  predicate Below(role: map<nat, Role>, q: nat, p: nat) {
    (q == p && q in role) || ChildOf(role, q, p) || GrandchildOf(role, q, p)
  }

  /** q is strictly below p, through one of p's first i slots. */
  predicate BelowSlots(role: map<nat, Role>, q: nat, p: nat, i: nat) {
    || (ChildOf(role, q, p) && role[q].slot < i)
    || (GrandchildOf(role, q, p) && role[role[q].parent].slot < i)
  }

  /** The roles once p and everything below it are freed. */
  function FreeBelow(role: map<nat, Role>, p: nat): map<nat, Role> {
    map q | q in role :: if Below(role, q, p) then Free else role[q]
  }

  function FreeSlots(role: map<nat, Role>, p: nat, i: nat): map<nat, Role> {
    map q | q in role :: if BelowSlots(role, q, p, i) then Free else role[q]
  }

  /** Pages that are not free keep their contents. */
  ghost predicate KeepsLive(s: View, s': View, but: set<nat>) {
    && |s'.mem| == |s.mem|
    && (forall x: nat :: x < |s.mem| && x !in but && !(x in s'.role && s'.role[x] == Free) ==> s'.mem[x] == s.mem[x])
  }

  /** No leaf entry is valid at or below p. */
  ghost predicate NoLeaves(s: View, p: nat)
    requires Shape(s)
  {
    forall q: nat, i: nat {:trigger s.mem[q][i]} ::
      Below(s.role, q, p) && s.role[q].Table? && s.role[q].level == 0 && i < SLOTS ==> !IsValid(s.mem[q][i])
  }

  /** The holes are slots of tables above p, the slot p hangs from among them. */
  ghost predicate HolesAbove(s: View, p: nat, holes: set<(nat, nat)>) {
    && IsTable(s, p)
    && (forall h :: h in holes ==> IsTable(s, h.0) && s.role[h.0].level > s.role[p].level)
    && (s.role[p].level < 2 ==> (s.role[p].parent, s.role[p].slot) in holes)
  }

  /** freewalk(p) has dealt with the first i slots. */
  ghost predicate Progress(s0: View, s: View, p: nat, i: nat)
    requires Shape(s0) && Shape(s) && p < |s0.mem|
  {
    && s.role == FreeSlots(s0.role, p, i)
    && KeepsLive(s0, s, {p})
    && (forall j: nat :: j < SLOTS ==> if j < i then !IsValid(s.mem[p][j]) else s.mem[p][j] == s0.mem[p][j])
  }

  lemma ProgressStart(s: View, p: nat)
    requires Shape(s) && p < |s.mem|
    ensures Progress(s, s, p, 0)
  {
    hide IsValid;
    assert FreeSlots(s.role, p, 0) == s.role;
  }

  /** A slot that holds no table: nothing hangs from it. */
  lemma ProgressSkip(s0: View, s: View, p: nat, i: nat, holes: set<(nat, nat)>)
    requires Shape(s0) && InvExcept(s, holes) && p < |s0.mem| && i < SLOTS && IsTable(s0, p) && IsTable(s, p)
    requires Progress(s0, s, p, i) && !IsValid(s.mem[p][i])
    ensures Progress(s0, s, p, i + 1)
  {
    hide IsValid, MakePte, Ppn, EdgesOk, LeavesOk, FramesOk, FreeListOk;
    forall q | q in s0.role
      ensures BelowSlots(s0.role, q, p, i) == BelowSlots(s0.role, q, p, i + 1)
    {
      if ChildOf(s0.role, q, p) && s0.role[q].slot == i {
        assert IsTable(s, q) ==> NodeOk(s, q);
        MakePteFields(q, 0);
      }
      if GrandchildOf(s0.role, q, p) && s0.role[s0.role[q].parent].slot == i {
        var u := s0.role[q].parent;
        assert IsTable(s, u) ==> NodeOk(s, u);
        MakePteFields(u, 0);
      }
    }
  }

  /** A valid entry of an interior table leads to a child that can be taken down in its turn. */
  lemma ChildEntry(s0: View, s: View, p: nat, i: nat, holes: set<(nat, nat)>)
    requires InvExcept(s0, holes) && InvExcept(s, holes) && p < |s0.mem| && i < SLOTS && IsTable(s0, p)
             && NoLeaves(s0, p)
    requires Progress(s0, s, p, i) && HolesAbove(s, p, holes) && IsValid(s.mem[p][i]) && s.role[p] == s0.role[p]
    ensures 0 < s.role[p].level <= 2 && !IsLeaf(s.mem[p][i])
    ensures var c := Ppn(s.mem[p][i]);
            && 0 < c < |s.mem| <= MAXPAGES && IsTable(s, c) && s.role[c].level == s.role[p].level - 1
            && ChildOf(s.role, c, p) && s.role[c].slot == i
            && Pte2Pa(s.mem[p][i]) == c * 4096
            && HolesAbove(s, c, holes + {(p, i)}) && NoLeaves(s, c)
  {
    assert !IsLeaf(0);
    hide IsValid, MakePte, Ppn, IsLeaf, LeavesOk, FramesOk, FreeListOk, Pte2Pa, NoLeaves;
    var w := s.mem[p][i];
    assert NodeOk(s, p);
    assert w == s0.mem[p][i];
    NoLeafHere(s0, p, i);
    assert EdgeOk(s, p, i);
    hide EdgesOk;
    var c := Ppn(w);
    MakePteFields(c, 0);
    MakePteBits(c, 0);
    NoLeavesChild(s0, s, p, i, c);
  }

  lemma NoLeafHere(s: View, p: nat, i: nat)
    requires Shape(s) && IsTable(s, p) && NoLeaves(s, p) && i < SLOTS && IsValid(s.mem[p][i])
    ensures s.role[p].level != 0
  {
    assert Below(s.role, p, p);
  }

  lemma NoLeavesChild(s0: View, s: View, p: nat, i: nat, c: nat)
    requires Shape(s0) && Shape(s) && p < |s0.mem| && IsTable(s0, p) && NoLeaves(s0, p)
    requires Progress(s0, s, p, i) && ChildOf(s.role, c, p) && s.role[p] == s0.role[p] && s.role[p].Table?
    requires 0 < s.role[p].level <= 2 && s.role[c].level + 1 == s.role[p].level && NodesOk(s)
    ensures NoLeaves(s, c)
  {
    hide IsValid, MakePte;
    forall q: nat, j: nat | Below(s.role, q, c) && s.role[q].Table? && s.role[q].level == 0 && j < SLOTS
      ensures !IsValid(s.mem[q][j])
    {
      assert s.role[q] == s0.role[q] && s0.role[c] == s.role[c];
      assert q != p;
      assert s.mem[q] == s0.mem[q];
      assert NodeOk(s, q);
      assert NodeOk(s, s.role[q].parent);
      BelowChild(s0.role, q, c, p);
    }
  }

  lemma BelowChild(role: map<nat, Role>, q: nat, c: nat, p: nat)
    requires ChildOf(role, c, p) && (q == c || ChildOf(role, q, c))
    ensures Below(role, q, p)
  {
  }

  lemma MoreHoles(s: View, holes: set<(nat, nat)>, h: (nat, nat))
    requires InvExcept(s, holes)
    ensures InvExcept(s, holes + {h})
  {
  }

  /** The child has been taken down; the store that zeroes its slot completes the round. */
  lemma ProgressChild(s0: View, s: View, s1: View, p: nat, i: nat, c: nat, holes: set<(nat, nat)>)
    requires InvExcept(s0, holes) && InvExcept(s, holes) && p < |s0.mem| && i < SLOTS && IsTable(s0, p) && IsTable(s, p)
    requires Progress(s0, s, p, i) && s.role[p] == s0.role[p] && s.role[p].level > 0
    requires ChildOf(s.role, c, p) && s.role[c].slot == i && s.role[c].level == s.role[p].level - 1
    requires InvExcept(s1, holes + {(p, i)}) && s1.role == FreeBelow(s.role, c) && KeepsLive(s, s1, {})
    ensures IsTable(s1, p) && s1.role[p] == s0.role[p]
    ensures var s2 := SetWord(s1, p, i, 0);
            InvExcept(s2, holes) && Progress(s0, s2, p, i + 1)
  {
    assert !IsValid(0);
    hide IsValid, MakePte, Ppn, IsLeaf, LeavesOk, FramesOk, FreeListOk, EdgesOk;
    ChildAtSlot(s, p, i, c);
    assert NodeOk(s, c);
    NotAbove(s, p, c);
    RolesAfterChild(s0, s, p, i, c);
    CloseHoleInv(s1, p, i, holes);
  }

  /** The only table that hangs from slot i of p is c. */
  lemma ChildAtSlot(s: View, p: nat, i: nat, c: nat)
    requires Shape(s) && NodesOk(s) && ChildOf(s.role, c, p) && s.role[c].slot == i
    ensures forall q: nat :: ChildOf(s.role, q, p) && s.role[q].slot == i ==> q == c
  {
    hide MakePte, Ppn;
    forall q: nat | ChildOf(s.role, q, p) && s.role[q].slot == i ensures q == c {
      assert NodeOk(s, q) && NodeOk(s, c);
      MakePteFields(q, 0);
      MakePteFields(c, 0);
    }
  }

  lemma NotAbove(s: View, p: nat, c: nat)
    requires Shape(s) && NodesOk(s) && IsTable(s, p) && ChildOf(s.role, c, p) && s.role[c].level < s.role[p].level
    ensures !Below(s.role, p, c)
  {
    hide MakePte;
    assert NodeOk(s, p);
    if s.role[p].level < 2 {
      assert NodeOk(s, s.role[p].parent);
    }
  }

  lemma RolesAfterChild(s0: View, s: View, p: nat, i: nat, c: nat)
    requires Shape(s0) && Shape(s) && NodesOk(s0) && NodesOk(s) && p < |s0.mem| && IsTable(s0, p)
    requires s.role == FreeSlots(s0.role, p, i) && s.role[p] == s0.role[p]
    requires ChildOf(s.role, c, p) && s.role[c].slot == i
    requires forall q: nat :: ChildOf(s.role, q, p) && s.role[q].slot == i ==> q == c
    ensures FreeBelow(s.role, c) == FreeSlots(s0.role, p, i + 1)
  {
    hide MakePte;
    forall q: nat | q in s0.role ensures FreeBelow(s.role, c)[q] == FreeSlots(s0.role, p, i + 1)[q] {
      if s0.role[q].Table? {
        assert NodeOk(s0, q);
        if s0.role[q].level < 2 && s0.role[q].parent in s0.role && s0.role[s0.role[q].parent].Table? {
          assert NodeOk(s0, s0.role[q].parent);
        }
      }
      assert NodeOk(s, c);
    }
  }

  /** All slots done: the table itself can go. */
  lemma ProgressEnd(s0: View, s: View, p: nat, holes: set<(nat, nat)>)
    requires InvExcept(s0, holes) && InvExcept(s, holes) && p < |s0.mem| && IsTable(s0, p) && IsTable(s, p)
             && s.role[p] == s0.role[p]
    requires Progress(s0, s, p, SLOTS) && HolesAbove(s, p, holes)
    ensures var s' := Push(SetRole(s, p, Held(0)), p);
            InvExcept(s', holes) && s'.role == FreeBelow(s0.role, p) && KeepsLive(s0, s', {})
  {
    hide IsValid, MakePte, Ppn, IsLeaf, LeavesOk, FramesOk, FreeListOk, EdgesOk;
    RetireTableInv(s, p, holes);
    PushInv(SetRole(s, p, Held(0)), p, holes);
    forall q: nat | q in s0.role && q != p ensures BelowSlots(s0.role, q, p, SLOTS) == Below(s0.role, q, p) {
      if s0.role[q].Table? {
        assert NodeOk(s0, q);
        if IsTable(s0, s0.role[q].parent) {
          assert NodeOk(s0, s0.role[q].parent);
        }
      }
    }
  }

  // ---------------------------------------------------------------- a whole tree

  /** The roles once a tree is gone: its tables and its frames are free. */
  function FreeTree(role: map<nat, Role>, root: nat): map<nat, Role> {
    map q | q in role :: if (role[q].Table? || role[q].Frame?) && role[q].root == root then Free else role[q]
  }

  /** An empty tree has no leaves, and everything in it is below its root. */
  lemma EmptyTree(s: View, root: nat)
    requires Inv(s) && IsRoot(s, root) && AbsMap(s.mem, root) == map[]
    ensures NoLeaves(s, root) && HolesAbove(s, root, {}) && FreeBelow(s.role, root) == FreeTree(s.role, root)
  {
    hide AbsMap, IsValid, MakePte, Ppn, IsLeaf, LeavesOk, FreeListOk, EdgesOk, Px, Prefix, TableAt, FramesOk;
    forall q: nat | q in s.role ensures Below(s.role, q, root) <==> s.role[q].Table? && s.role[q].root == root {
      if IsTable(s, q) {
        BelowRoot(s, q);
      }
    }
    forall q: nat | q in s.role && s.role[q].Frame? ensures s.role[q].root != root {
      FrameIsMapped(s, q, s.role[q].root, s.role[q].vpn);
    }
    forall q: nat, i: nat | Below(s.role, q, root) && s.role[q].Table? && s.role[q].level == 0 && i < SLOTS
      ensures !IsValid(s.mem[q][i])
    {
      var v := s.role[q].prefix * 512 + i;
      PlaceRange(s, q);
      LeafSplit(v);
      SplitUnique(s.role[q].prefix, i, Prefix(0, v), Px(0, v));
      RoleTableAt(s, q, v);
      LeafEntry(s, root, v, q);
    }
  }

  lemma BelowRoot(s: View, q: nat)
    requires Shape(s) && NodesOk(s) && IsTable(s, q)
    ensures forall r: nat :: IsRoot(s, r) ==> (Below(s.role, q, r) <==> s.role[q].root == r)
  {
    hide MakePte;
    assert NodeOk(s, q);
    if s.role[q].level < 2 {
      assert NodeOk(s, s.role[q].parent);
      if s.role[s.role[q].parent].level < 2 {
        assert NodeOk(s, s.role[s.role[q].parent].parent);
      }
    }
  }

  /** Unmapping all of a tree and then freeing its tables frees exactly the tree. */
  lemma FreeTreeRoles(s: View, s1: View, root: nat, d: set<nat>)
    requires Inv(s) && IsRoot(s, root) && AbsMap(s.mem, root).Keys <= d && Released(s, s1, root, d, Free)
    ensures FreeTree(s1.role, root) == FreeTree(s.role, root)
  {
    hide AbsMap, InvExcept, FreeTree, ReleaseRole;
    forall q: nat | q in s.role && s.role[q].Frame? && s.role[q].root == root ensures s.role[q].vpn in d {
      FrameIsMapped(s, q, root, s.role[q].vpn);
    }
    FreeTreeAfterRelease(s.role, root, d);
  }

  lemma FreeTreeAfterRelease(role: map<nat, Role>, root: nat, d: set<nat>)
    requires forall q: nat :: q in role && role[q].Frame? && role[q].root == root ==> role[q].vpn in d
    ensures FreeTree(ReleaseRole(role, root, d, Free), root) == FreeTree(role, root)
  {
  }

  lemma KeepsLiveTree(s: View, s1: View, s2: View, root: nat, d: set<nat>)
    requires Released(s, s1, root, d, Free) && KeepsLive(s1, s2, {}) && s2.role == FreeTree(s1.role, root)
    ensures KeepsLive(s, s2, {})
  {
    hide AbsMap;
  }
}
