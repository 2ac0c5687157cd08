/** Frames that belong to a mapping: giving them out, taking them back, and the page count across both. */
module Ownership {
  import opened Riscv
  import opened Wrappers
  import opened PageTable
  import opened Translation
  import opened Sets

  /** The page that v is mapped to, if any, is a frame that this mapping owns. */
  ghost predicate OwnsFrame(s: View, root: nat, v: nat) {
    v in AbsMap(s.mem, root) ==> FrameFor(s, Ppn(AbsMap(s.mem, root)[v]), root, v)
  }

  predicate FrameFor(s: View, q: nat, root: nat, v: nat) {
    q in s.role && s.role[q].Frame? && s.role[q].root == root && s.role[q].vpn == v
  }

  /** A frame's label tells the one place it is mapped at. */
  lemma FrameIsMapped(s: View, q: nat, root: nat, v: nat)
    requires Inv(s) && FrameFor(s, q, root, v)
    ensures IsRoot(s, root) && v < NVPN && v in AbsMap(s.mem, root) && Ppn(AbsMap(s.mem, root)[v]) == q
    ensures TableAt(s.mem, root, v, 0) == Some(s.role[q].table) && s.role[q].slot == Px(0, v)
  {
    hide AbsMap, TableAt, Ppn, IsValid, MakePte, Px, Prefix, EdgesOk, LeavesOk, FreeListOk;
    assert FrameOk(s, q);
    var t, i := s.role[q].table, s.role[q].slot;
    assert NodeOk(s, t);
    PlaceRange(s, t);
    hide NodesOk, FramesOk;
    LeafSplit(v);
    SplitUnique(s.role[t].prefix, i, Prefix(0, v), Px(0, v));
    RoleTableAt(s, t, v);
    var t', i' := LookupIsSlot(s, root, v);
    NotMapped(s, root, v);
  }

  /** A held page that is mapped can become the frame of that mapping: ownership is a matter of the proof. */
  lemma AdoptMapped(s: View, root: nat, v: nat, q: nat) returns (t: nat)
    requires Inv(s) && IsRoot(s, root) && v < NVPN && q in s.role && s.role[q].Held?
    requires v in AbsMap(s.mem, root) && Ppn(AbsMap(s.mem, root)[v]) == q
    ensures var s' := SetRole(s, q, Frame(root, v, t, Px(0, v)));
            && Inv(s') && IsRoot(s', root) && OwnsFrame(s', root, v)
            && forall u :: OwnsFrame(s, root, u) ==> OwnsFrame(s', root, u)
  {
    hide AbsMap, FreeListOk, EdgesOk, LeavesOk, FramesOk, NodesOk, MakePte, IsValid, Ppn, Px, TableAt, Prefix;
    NoLeafEntry(s, root, v);
    t := TableAt(s.mem, root, v, 0).value;
    LeafEntry(s, root, v, t);
    TableAtRole(s, root, v, 0);
    LeafSplit(v);
    AdoptInv(s, q, t, Px(0, v));
  }

  // ---------------------------------------------------------------- taking mappings away

  /** What happens to the roles when the frames that `root` owns at the pages in d are let go. */
  function ReleaseRole(role: map<nat, Role>, root: nat, d: set<nat>, r: Role): map<nat, Role> {
    map p | p in role :: if role[p].Frame? && role[p].root == root && role[p].vpn in d then r else role[p]
  }

  /** The mappings of `root` at d are gone and their frames have role r (Free or Held); nothing else changed. */
  ghost predicate Released(s: View, s': View, root: nat, d: set<nat>, r: Role) {
    && |s'.mem| == |s.mem|
    && s'.role == ReleaseRole(s.role, root, d, r)
    && AbsMap(s'.mem, root) == AbsMap(s.mem, root) - d
    && (if r == Free then |s'.free| + |AbsMap(s'.mem, root)| == |s.free| + |AbsMap(s.mem, root)| else s'.free == s.free)
    && (forall p: nat :: p < |s.mem| && !TableOf(s, p, root) && !(p in s'.role && s'.role[p] == Free) ==>
         s'.mem[p] == s.mem[p])
  }

  /** The two stores of the loop body of uvmunmap: kfree of the frame if asked for, and *pte = 0. */
  function UnmapOne(s: View, root: nat, v: nat, t: nat, i: nat, doFree: bool): View
    requires t < |s.mem| <= MAXPAGES && |s.mem[t]| == SLOTS && i < SLOTS && (doFree ==> Ppn(s.mem[t][i]) < |s.mem|)
  {
    var q := Ppn(s.mem[t][i]);
    if doFree then SetWord(Push(SetRole(s, q, Held(0)), q), t, i, 0)
    else SetWord(DropFrame(s, q, root, v), t, i, 0)
  }

  function DropFrame(s: View, q: nat, root: nat, v: nat): View {
    if FrameFor(s, q, root, v) then SetRole(s, q, Held(0)) else s
  }

  lemma OnlyFrame(s: View, root: nat, v: nat, t: nat, i: nat, q: nat)
    requires Inv(s) && q in s.role && s.role[q].Frame? && IsTable(s, t) && s.role[t].level == 0 && i < SLOTS
    requires s.role[t].root == root && s.role[t].prefix * 512 + i == v
    ensures s.role[q].table == t && s.role[q].slot == i <==> FrameFor(s, q, root, v)
    ensures FrameFor(s, q, root, v) ==> q == Ppn(s.mem[t][i])
  {
    hide Ppn, IsValid, MakePte, EdgesOk, LeavesOk, FreeListOk, NodesOk;
    assert FrameOk(s, q);
    var u := s.role[q].table;
    if FrameFor(s, q, root, v) {
      SplitUnique(s.role[u].prefix, s.role[q].slot, s.role[t].prefix, i);
      PlaceIsUnique(s, u, t);
    }
  }

  lemma FreeFrameInv(s: View, q: nat, root: nat)
    requires Inv(s) && q in s.role && s.role[q].Frame? && IsRoot(s, root)
    ensures Inv(Push(SetRole(s, q, Held(0)), q))
    ensures AbsMap(Push(SetRole(s, q, Held(0)), q).mem, root) == AbsMap(s.mem, root)
  {
    hide AbsMap, FreeListOk, EdgesOk, LeavesOk, NodesOk, FramesOk;
    HeldInv(s, q, s.mem[q], 0);
    assert SetPage(s, q, s.mem[q]) == s;
    PushInv(SetRole(s, q, Held(0)), q, {});
    SameLookup(s, Push(SetRole(s, q, Held(0)), q).mem, root);
  }

  lemma UnmapOneInv(s: View, root: nat, v: nat, t: nat, i: nat, doFree: bool)
    requires Inv(s) && IsRoot(s, root) && TableOf(s, t, root) && s.role[t].level == 0 && i < SLOTS
    requires s.role[t].prefix * 512 + i == v
    requires doFree ==> FrameFor(s, Ppn(s.mem[t][i]), root, v)
    ensures Inv(UnmapOne(s, root, v, t, i, doFree))
    ensures UnmapOne(s, root, v, t, i, doFree).role == ReleaseRole(s.role, root, {v}, if doFree then Free else Held(0))
  {
    assert !IsValid(0);
    hide Ppn, IsValid, IsLeaf, MakePte, EdgesOk, LeavesOk, NodesOk, FramesOk, FreeListOk, AbsMap;
    var q := Ppn(s.mem[t][i]);
    forall p: nat | p in s.role && s.role[p].Frame?
      ensures s.role[p].table == t && s.role[p].slot == i <==> FrameFor(s, p, root, v)
      ensures FrameFor(s, p, root, v) ==> p == q
    {
      OnlyFrame(s, root, v, t, i, p);
    }
    var s1 := if FrameFor(s, q, root, v) then SetRole(s, q, Held(0)) else s;
    if doFree {
      FreeFrameInv(s, q, root);
      SetLeafInv(Push(s1, q), t, i, 0);
    } else {
      if FrameFor(s, q, root, v) {
        HeldInv(s, q, s.mem[q], 0);
        assert SetPage(s, q, s.mem[q]) == s;
      }
      SetLeafInv(s1, t, i, 0);
    }
  }

  lemma UnmapOneMap(s: View, root: nat, v: nat, t: nat, i: nat, doFree: bool)
    requires Inv(s) && IsRoot(s, root) && TableOf(s, t, root) && s.role[t].level == 0 && i < SLOTS
    requires s.role[t].prefix * 512 + i == v
    requires doFree ==> FrameFor(s, Ppn(s.mem[t][i]), root, v)
    ensures AbsMap(UnmapOne(s, root, v, t, i, doFree).mem, root) == AbsMap(s.mem, root) - {v}
  {
    hide Ppn, IsValid, IsLeaf, MakePte, EdgesOk, LeavesOk, NodesOk, FramesOk, FreeListOk, AbsMap, SetWord, Push;
    var q := Ppn(s.mem[t][i]);
    if doFree {
      FreeFrameInv(s, q, root);
      PushTable(SetRole(s, q, Held(0)), q, t);
      ZeroLeaf(Push(SetRole(s, q, Held(0)), q), root, v, t, i);
    } else {
      DropFrameMem(s, q, root, v, t, i);
      ZeroLeaf(s, root, v, t, i);
    }
  }

  /** Zeroing a leaf slot removes its page from the map. */
  lemma ZeroLeaf(s: View, root: nat, v: nat, t: nat, i: nat)
    requires Inv(s) && IsRoot(s, root) && TableOf(s, t, root) && s.role[t].level == 0 && i < SLOTS
             && s.role[t].prefix * 512 + i == v
    ensures AbsMap(SetWord(s, t, i, 0).mem, root) == AbsMap(s.mem, root) - {v}
  {
    assert !IsValid(0);
    hide Ppn, IsValid, IsLeaf, MakePte, EdgesOk, LeavesOk, NodesOk, FramesOk, FreeListOk, AbsMap, SetWord;
    SetLeafMap(s, t, i, 0, root);
  }

  lemma PushTable(s: View, q: nat, t: nat)
    requires q < |s.mem| && q < MAXPAGES && IsTable(s, t) && t != q
    ensures IsTable(Push(s, q), t) && Push(s, q).role[t] == s.role[t]
    ensures forall r: nat :: IsRoot(s, r) && r != q ==> IsRoot(Push(s, q), r)
  {
  }

  lemma DropFrameMem(s: View, q: nat, root: nat, v: nat, t: nat, i: nat)
    requires t < |s.mem| && i < |s.mem[t]|
    ensures SetWord(DropFrame(s, q, root, v), t, i, 0).mem == SetWord(s, t, i, 0).mem
  {
  }

  /** One round of uvmunmap on a mapped page. */
  lemma UnmapOneReleased(s: View, root: nat, v: nat, t: nat, doFree: bool)
    requires Inv(s) && IsRoot(s, root) && v < NVPN && TableAt(s.mem, root, v, 0) == Some(t)
    requires v in AbsMap(s.mem, root) && (doFree ==> OwnsFrame(s, root, v))
    ensures 0 < t < |s.mem| <= MAXPAGES && |s.mem[t]| == SLOTS && Px(0, v) < SLOTS
    ensures s.mem[t][Px(0, v)] == AbsMap(s.mem, root)[v] && IsValid(s.mem[t][Px(0, v)])
    ensures doFree ==> var q := Ppn(s.mem[t][Px(0, v)]); 0 < q < |s.mem| && FrameFor(s, q, root, v)
    ensures var s' := UnmapOne(s, root, v, t, Px(0, v), doFree);
            Inv(s') && IsRoot(s', root) && Released(s, s', root, {v}, if doFree then Free else Held(0))
  {
    hide AbsMap, TableAt, Ppn, IsValid, MakePte, Px, Prefix, EdgesOk, LeavesOk, FreeListOk, NodesOk, FramesOk;
    var t', i := LookupIsSlot(s, root, v);
    NotMapped(s, root, v);
    UnmapOneInv(s, root, v, t, i, doFree);
    UnmapOneMap(s, root, v, t, i, doFree);
  }

  /** A page that is not mapped has no frame to release. */
  lemma ReleaseNothing(s: View, root: nat, v: nat, r: Role)
    requires Inv(s) && IsRoot(s, root) && v !in AbsMap(s.mem, root)
    ensures Released(s, s, root, {v}, r)
  {
    hide AbsMap, InvExcept;
    forall q: nat | q in s.role && FrameFor(s, q, root, v) ensures false {
      FrameIsMapped(s, q, root, v);
    }
    assert ReleaseRole(s.role, root, {v}, r) == s.role;
  }

  lemma ReleasedTransitive(s0: View, s1: View, s2: View, root: nat, d: set<nat>, e: set<nat>, r: Role)
    requires Released(s0, s1, root, d, r) && Released(s1, s2, root, e, r) && (r == Free || r == Held(0))
    ensures Released(s0, s2, root, d + e, r)
  {
    hide AbsMap, ReleaseRole;
    ReleaseRoleTwice(s0.role, root, d, e, r);
    MinusTwice(AbsMap(s0.mem, root), d, e);
    forall p: nat | p < |s0.mem| && !TableOf(s0, p, root) && !(p in s2.role && s2.role[p] == Free)
      ensures s2.mem[p] == s0.mem[p]
    {
      ReleaseRoleAt(s0.role, root, d, r, p);
      ReleaseRoleAt(s1.role, root, e, r, p);
      assert s1.mem[p] == s0.mem[p];
    }
  }

  lemma MinusTwice(m: map<nat, Word>, d: set<nat>, e: set<nat>)
    ensures m - d - e == m - (d + e)
  {
  }

  lemma ReleaseRoleAt(role: map<nat, Role>, root: nat, d: set<nat>, r: Role, p: nat)
    requires r == Free || r == Held(0)
    ensures var role' := ReleaseRole(role, root, d, r);
            && (p in role' <==> p in role)
            && (p in role && role[p].Table? ==> role'[p] == role[p])
            && (p in role' && role'[p].Table? ==> role'[p] == role[p])
            && (p in role && role[p] == Free ==> role'[p] == Free)
  {
  }

  lemma ReleaseRoleTwice(role: map<nat, Role>, root: nat, d: set<nat>, e: set<nat>, r: Role)
    requires r == Free || r == Held(0)
    ensures ReleaseRole(ReleaseRole(role, root, d, r), root, e, r) == ReleaseRole(role, root, d + e, r)
  {
  }

  lemma ReleasedEmpty(s: View, root: nat, r: Role)
    ensures Released(s, s, root, {}, r)
  {
    hide AbsMap;
  }

  /** Owning survives releasing other pages. */
  lemma ReleasedOwns(s: View, s': View, root: nat, d: set<nat>, r: Role, v: nat)
    requires Released(s, s', root, d, r) && v !in d && OwnsFrame(s, root, v)
    ensures OwnsFrame(s', root, v)
  {
    hide AbsMap, Ppn;
  }

  /** Releasing leaves other trees, and the set of tables, alone. */
  lemma ReleasedOthers(s: View, s': View, root: nat, d: set<nat>, r: Role, other: nat)
    requires Inv(s) && Released(s, s', root, d, r) && IsRoot(s, other) && (r == Free || r == Held(0))
    ensures IsRoot(s', other) && Positions(s', other) == Positions(s, other)
    ensures other != root ==> AbsMap(s'.mem, other) == AbsMap(s.mem, other)
  {
    hide AbsMap, FreeListOk, EdgesOk, LeavesOk, NodesOk, FramesOk, Positions;
    hide ReleaseRole;
    forall p: nat
      ensures TableOf(s, p, other) <==> TableOf(s', p, other)
      ensures TableOf(s, p, other) ==> s'.role[p] == s.role[p]
      ensures TableOf(s, p, other) && other != root ==> s'.mem[p] == s.mem[p]
    {
      ReleaseRoleAt(s.role, root, d, r, p);
    }
    ReleaseRoleAt(s.role, root, d, r, other);
    PositionsKept(s, s', other);
    if other != root {
      SameLookup(s, s'.mem, other);
    }
  }

  // ---------------------------------------------------------------- mapping fresh frames

  /** What a newly mapped page is to be: its permission bits and its contents. */
  datatype Want = Want(perm: Perm, page: seq<Word>)

  /** Page v is mapped, as wanted, to a frame that was free before and that the mapping now owns. */
  ghost predicate NewPage(s: View, s': View, root: nat, v: nat, w: Want)
  {
    v in AbsMap(s'.mem, root) &&
    var q := Ppn(AbsMap(s'.mem, root)[v]);
    && q < MAXPAGES && q < |s'.mem| && AbsMap(s'.mem, root)[v] == MakePte(q, w.perm)
    && q in s.role && s.role[q] == Free && FrameFor(s', q, root, v)
    && s'.mem[q] == w.page
  }

  /** Free pages became tables of the tree and frames at the wanted pages; nothing else changed but its tables. */
  ghost predicate ExpandedRoles(s: View, s': View, root: nat, d: set<nat>) {
    && |s'.mem| == |s.mem| && s'.role.Keys == s.role.Keys
    && (forall p: nat :: p in s.role ==>
          || s'.role[p] == s.role[p]
          || (s.role[p] == Free && (TableOf(s', p, root) || (s'.role[p].Frame? && s'.role[p].root == root
             && s'.role[p].vpn in d))))
    && (forall p: nat :: p < |s.mem| && !TableOf(s, p, root) && !(p in s.role && s.role[p] == Free) ==>
         s'.mem[p] == s.mem[p])
  }

  /** The pages consumed are the frames and the tables that were missing. */
  ghost predicate ExpandedCount(s: View, s': View, root: nat, d: set<nat>) {
    && Positions(s', root) == Positions(s, root) + NeededOf(d)
    && |s.free| + |Positions(s, root)| == |s'.free| + |Positions(s', root)| + |d|
  }

  /** The tree maps the wanted pages to fresh frames, besides what it mapped before. */
  ghost predicate ExpandedMap(s: View, s': View, root: nat, want: map<nat, Want>) {
    && AbsMap(s'.mem, root).Keys == AbsMap(s.mem, root).Keys + want.Keys
    && (forall v :: v in AbsMap(s.mem, root) ==> v !in want && AbsMap(s'.mem, root)[v] == AbsMap(s.mem, root)[v])
    && (forall v: nat :: v in want ==> NewPage(s, s', root, v, want[v]))
  }

  ghost predicate Expanded(s: View, s': View, root: nat, want: map<nat, Want>) {
    ExpandedRoles(s, s', root, want.Keys) && ExpandedCount(s, s', root, want.Keys) && ExpandedMap(s, s', root, want)
  }

  lemma ExpandedEmpty(s: View, root: nat)
    ensures Expanded(s, s, root, map[])
  {
    hide AbsMap, Positions;
  }

  /** Everything the steps that map one fresh page have done: kalloc and fill, mappages, and the new owner. */
  lemma AddPage(s: View, page: seq<Word>, s2: View, root: nat, v: nat, perm: Word) returns (t: nat)
    requires Inv(s) && IsRoot(s, root) && |s.free| > 0 && |page| == SLOTS && v < NVPN && v !in AbsMap(s.mem, root)
             && perm < 1024
    requires ListAddr(s.free, 1) < WORD_MODULUS && s.free[0] < |s.mem| && s.free[0] < MAXPAGES
    requires var s1 := AllocFill(s, page);
             && Inv(s2) && Grown(s1, s2, root) && Positions(s2, root) == Positions(s1, root) + NeededOf({v})
             && AbsMap(s2.mem, root) == AbsMap(s.mem, root)[v := MakePte(s.free[0], perm)]
    ensures s.free[0] in s2.role
    ensures var s3 := SetRole(s2, s.free[0], Frame(root, v, t, Px(0, v)));
            Inv(s3) && IsRoot(s3, root) && Expanded(s, s3, root, map[v := Want(perm, page)])
  {
    hide AbsMap, TableAt, Ppn, IsValid, MakePte, Px, Prefix, EdgesOk, LeavesOk, NodesOk, FramesOk, FreeListOk,
        Positions, NeededOf, Expanded;
    var q := s.free[0];
    AllocPageInv(s, page);
    var s1 := AllocFill(s, page);
    AllocPageMap(s, page, root);
    GrownRoot(s1, s2, root, root);
    assert s2.role[q] == Held(0) && s2.mem[q] == page;
    NoLeafEntry(s2, root, v);
    t := TableAt(s2.mem, root, v, 0).value;
    LeafEntry(s2, root, v, t);
    MakePteFields(q, perm);
    TableAtRole(s2, root, v, 0);
    LeafSplit(v);
    AdoptInv(s2, q, t, Px(0, v));
    var s3 := SetRole(s2, q, Frame(root, v, t, Px(0, v)));
    PositionsKept(s2, s3, root);
    ExpandedByOne(s, s1, s2, s3, root, v, Want(perm, page));
  }

  lemma ExpandedByOne(s: View, s1: View, s2: View, s3: View, root: nat, v: nat, w: Want)
    requires |s.free| > 0 && ListAddr(s.free, 1) < WORD_MODULUS && s.free[0] < |s.mem| && s.free[0] < MAXPAGES
             && w.perm < 1024
    requires s.free[0] in s.role && s.role[s.free[0]] == Free && v !in AbsMap(s.mem, root)
    requires s1 == AllocFill(s, w.page) && Grown(s1, s2, root) && s2.role[s.free[0]] == Held(0)
             && s2.mem[s.free[0]] == w.page
    requires s3.mem == s2.mem && s3.free == s2.free && s3.role.Keys == s2.role.Keys
    requires forall p: nat :: p in s2.role && p != s.free[0] ==> s3.role[p] == s2.role[p]
    requires FrameFor(s3, s.free[0], root, v)
    requires Positions(s1, root) == Positions(s, root) && Positions(s3, root) == Positions(s2, root)
    requires Positions(s2, root) == Positions(s1, root) + NeededOf({v})
    requires AbsMap(s2.mem, root) == AbsMap(s.mem, root)[v := MakePte(s.free[0], w.perm)]
    requires Ppn(MakePte(s.free[0], w.perm)) == s.free[0]
    ensures Expanded(s, s3, root, map[v := w])
  {
    hide AbsMap, Ppn, MakePte, Positions, NeededOf, Grown, ExpandedRoles, ExpandedMap, ExpandedCount, AllocFill,
        FrameFor;
    assert map[v := w].Keys == {v};
    ExpandedByOneRoles(s, s1, s2, s3, root, v, w);
    ExpandedByOneMap(s, s3, root, v, w);
    assert ExpandedCount(s, s3, root, {v}) by {
      GrownSize(s1, s2, root);
      AllocFillSize(s, w.page);
      OneNewPosition(s, s3, root, v);
    }
  }

  lemma OneNewPosition(s: View, s3: View, root: nat, v: nat)
    requires Positions(s3, root) == Positions(s, root) + NeededOf({v})
    requires |s.free| + |Positions(s, root)| == |s3.free| + |Positions(s3, root)| + 1
    ensures ExpandedCount(s, s3, root, {v})
  {
    hide Positions, NeededOf;
  }

  lemma ExpandedByOneMap(s: View, s3: View, root: nat, v: nat, w: Want)
    requires |s.free| > 0 && s.free[0] < |s3.mem| && s.free[0] < MAXPAGES
    requires s.free[0] in s.role && s.role[s.free[0]] == Free && v !in AbsMap(s.mem, root)
    requires FrameFor(s3, s.free[0], root, v) && s3.mem[s.free[0]] == w.page
    requires AbsMap(s3.mem, root) == AbsMap(s.mem, root)[v := MakePte(s.free[0], w.perm)]
    requires Ppn(MakePte(s.free[0], w.perm)) == s.free[0]
    ensures ExpandedMap(s, s3, root, map[v := w])
  {
    hide AbsMap, Ppn, MakePte, FrameFor;
    assert map[v := w].Keys == {v};
  }

  lemma AllocFillSize(s: View, page: seq<Word>)
    requires |s.free| > 0 && ListAddr(s.free, 1) < WORD_MODULUS && s.free[0] < |s.mem|
    ensures |AllocFill(s, page).free| == |s.free| - 1
  {
  }

  lemma ExpandedByOneRoles(s: View, s1: View, s2: View, s3: View, root: nat, v: nat, w: Want)
    requires |s.free| > 0 && ListAddr(s.free, 1) < WORD_MODULUS && s.free[0] < |s.mem|
    requires s.free[0] in s.role && s.role[s.free[0]] == Free
    requires s1 == AllocFill(s, w.page) && Grown(s1, s2, root)
    requires s3.mem == s2.mem && s3.role.Keys == s2.role.Keys
    requires forall p: nat :: p in s2.role && p != s.free[0] ==> s3.role[p] == s2.role[p]
    requires FrameFor(s3, s.free[0], root, v)
    ensures ExpandedRoles(s, s3, root, {v})
    ensures |s3.mem| == |s.mem|
  {
    hide Positions;
  }

  lemma ExpandedTransitive(s0: View, s: View, s': View, root: nat, want: map<nat, Want>, v: nat, w: Want)
    requires v !in want && Expanded(s0, s, root, want) && Expanded(s, s', root, map[v := w])
    ensures Expanded(s0, s', root, want[v := w])
  {
    hide AbsMap, Ppn, MakePte, Positions, NeededOf, NewPage, ExpandedRoles, ExpandedMap;
    var want' := want[v := w];
    assert map[v := w].Keys == {v} && want'.Keys == want.Keys + {v};
    NeededOfUnion(want.Keys, {v});
    ExpandedRolesTransitive(s0, s, s', root, want.Keys, {v});
    ExpandedMapTransitive(s0, s, s', root, want, v, w);
  }

  lemma ExpandedRolesTransitive(s0: View, s: View, s': View, root: nat, d: set<nat>, e: set<nat>)
    requires ExpandedRoles(s0, s, root, d) && ExpandedRoles(s, s', root, e)
    ensures ExpandedRoles(s0, s', root, d + e)
  {
  }

  lemma ExpandedMapTransitive(s0: View, s: View, s': View, root: nat, want: map<nat, Want>, v: nat, w: Want)
    requires v !in want && ExpandedRoles(s0, s, root, want.Keys) && ExpandedRoles(s, s', root, {v})
    requires ExpandedMap(s0, s, root, want) && ExpandedMap(s, s', root, map[v := w])
    ensures ExpandedMap(s0, s', root, want[v := w])
  {
    hide AbsMap, Ppn, MakePte;
    var want' := want[v := w];
    forall u: nat | u in want' ensures NewPage(s0, s', root, u, want'[u]) {
      if u != v {
        assert NewPage(s0, s, root, u, want[u]);
      } else {
        assert v in map[v := w] && NewPage(s, s', root, v, w);
      }
    }
  }

  lemma NeededOfUnion(d: set<nat>, e: set<nat>)
    ensures NeededOf(d + e) == NeededOf(d) + NeededOf(e)
  {
    hide Needed;
  }

  // ---------------------------------------------------------------- undoing a failed expansion

  /** A page allocated for a mapping that failed goes back to the list; what remains is growth. */
  lemma GiveBack(s: View, page: seq<Word>, s2: View, root: nat)
    requires Inv(s) && IsRoot(s, root) && |s.free| > 0 && |page| == SLOTS
    requires ListAddr(s.free, 1) < WORD_MODULUS && s.free[0] < |s.mem| && s.free[0] < MAXPAGES
    requires var s1 := AllocFill(s, page);
             Inv(s2) && Grown(s1, s2, root) && AbsMap(s2.mem, root) == AbsMap(s1.mem, root)
    ensures s.free[0] in s2.role && s2.role[s.free[0]] == Held(0)
    ensures var s3 := Push(s2, s.free[0]);
            Inv(s3) && IsRoot(s3, root) && Grown(s, s3, root) && AbsMap(s3.mem, root) == AbsMap(s.mem, root)
  {
    hide AbsMap, EdgesOk, LeavesOk, NodesOk, FramesOk, FreeListOk, Positions;
    var q := s.free[0];
    var s1 := AllocFill(s, page);
    AllocPageInv(s, page);
    AllocPageMap(s, page, root);
    GrownRoot(s1, s2, root, root);
    var s3 := Push(s2, q);
    PushInv(s2, q, {});
    SameLookup(s2, s3.mem, root);
    PositionsKept(s2, s3, root);
  }

  lemma NothingMapped(m: map<nat, Word>, m': map<nat, Word>, lo: nat, ppn: nat, perm: Word)
    requires ppn + 1 <= MAXPAGES && perm < 1024
    requires exists j :: 0 <= j < 1 && m' == m + RangeMap(lo, j, ppn, perm)
    ensures m' == m
  {
    hide MakePte;
    assert Pages(lo, 0) == {};
    assert RangeMap(lo, 0, ppn, perm) == map[];
  }

  lemma OneMapped(m: map<nat, Word>, v: nat, ppn: nat, perm: Word)
    requires ppn + 1 <= MAXPAGES && perm < 1024
    ensures Pages(v, 1) == {v} && m + RangeMap(v, 1, ppn, perm) == m[v := MakePte(ppn, perm)]
  {
    hide MakePte;
  }

  /** After an expansion, and growth beyond it, a page is owned if it was: it is wanted, unmapped, or as before. */
  lemma ExpandedOwns(s0: View, s: View, s3: View, root: nat, want: map<nat, Want>, v: nat)
    requires Inv(s0) && Expanded(s0, s, root, want) && Grown(s, s3, root)
    requires AbsMap(s3.mem, root) == AbsMap(s.mem, root) && OwnsFrame(s0, root, v)
    ensures OwnsFrame(s3, root, v)
  {
    hide AbsMap, Ppn, MakePte, Positions, ExpandedCount, InvExcept;
    if v in want {
      assert NewPage(s0, s, root, v, want[v]);
    }
  }

  /** What a failed growth or copy leaves once it has been undone: the mappings at d are gone, those that were there
      before included, their frames are free, and tables may have been added. */
  ghost predicate Undone(s: View, s': View, root: nat, d: set<nat>) {
    && UndoneRoles(s, s', root, d)
    && AbsMap(s'.mem, root) == AbsMap(s.mem, root) - d
    && |s.free| + |Positions(s, root)| + |AbsMap(s.mem, root)| ==
       |s'.free| + |Positions(s', root)| + |AbsMap(s'.mem, root)|
    && |Positions(s, root)| <= |Positions(s', root)|
  }

  ghost predicate UndoneRoles(s: View, s': View, root: nat, d: set<nat>) {
    && |s'.mem| == |s.mem| && s'.role.Keys == s.role.Keys
    && (forall p: nat :: p in s.role ==>
          || s'.role[p] == s.role[p]
          || (s.role[p] == Free && TableOf(s', p, root))
          || (s.role[p].Frame? && s.role[p].root == root && s.role[p].vpn in d && s'.role[p] == Free))
    && (forall p: nat {:trigger s'.mem[p]} ::
          p < |s.mem| && !TableOf(s, p, root) && !IsFree(s, p) && !IsFree(s', p) ==> s'.mem[p] == s.mem[p])
  }

  predicate IsFree(s: View, p: nat) {
    p in s.role && s.role[p] == Free
  }

  /** Releasing all of d after a partial expansion within d undoes it. */
  lemma UndoExpansion(s0: View, s: View, s3: View, s': View, root: nat, want: map<nat, Want>, d: set<nat>)
    requires Expanded(s0, s, root, want) && Grown(s, s3, root)
    requires AbsMap(s3.mem, root) == AbsMap(s.mem, root) && Inv(s3) && IsRoot(s3, root)
    requires Released(s3, s', root, d, Free) && want.Keys <= d
    ensures Undone(s0, s', root, d)
  {
    hide AbsMap, Positions, NeededOf, EdgesOk, LeavesOk, NodesOk, FramesOk, FreeListOk, Released, Expanded, Grown,
         UndoneRoles;
    assert Positions(s', root) == Positions(s3, root) by { ReleasedOthers(s3, s', root, d, Free, root); }
    UndoMap(s0, s, s3, s', root, want, d);
    UndoRoles(s0, s, s3, s', root, want, d);
    ExpandedSize(s0, s, root, want);
    GrownSize(s, s3, root);
    ReleasedSize(s3, s', root, d);
  }

  lemma UndoMap(s0: View, s: View, s3: View, s': View, root: nat, want: map<nat, Want>, d: set<nat>)
    requires Expanded(s0, s, root, want) && AbsMap(s3.mem, root) == AbsMap(s.mem, root)
    requires Released(s3, s', root, d, Free) && want.Keys <= d
    ensures AbsMap(s'.mem, root) == AbsMap(s0.mem, root) - d
    ensures |AbsMap(s.mem, root)| == |AbsMap(s0.mem, root)| + |want|
  {
    hide AbsMap, NewPage, ExpandedRoles, ExpandedCount, ReleaseRole;
    assert |want.Keys| == |want|;
    AddedAndRemoved(AbsMap(s0.mem, root), AbsMap(s.mem, root), want.Keys, d);
  }

  /** Removing at least what was added leaves the old map, less what else is removed. */
  lemma AddedAndRemoved(m0: map<nat, Word>, m: map<nat, Word>, w: set<nat>, d: set<nat>)
    requires m.Keys == m0.Keys + w && w <= d && m0.Keys !! w
    requires forall v :: v in m0 ==> m[v] == m0[v]
    ensures m - d == m0 - d && |m| == |m0| + |w|
  {
    assert |m.Keys| == |m| && |m0.Keys| == |m0|;
  }

  lemma UndoRoles(s0: View, s: View, s3: View, s': View, root: nat, want: map<nat, Want>, d: set<nat>)
    requires Expanded(s0, s, root, want) && Grown(s, s3, root)
    requires Released(s3, s', root, d, Free) && want.Keys <= d
    ensures UndoneRoles(s0, s', root, d)
  {
    hide AbsMap, Positions, NewPage, ExpandedMap, ExpandedCount;
  }

  /** If nothing was mapped at d before, what remains is the old map, and tables. */
  lemma UndoneIsGrown(s: View, s': View, root: nat, d: set<nat>)
    requires Inv(s) && Undone(s, s', root, d) && AbsMap(s.mem, root).Keys !! d
    ensures Grown(s, s', root) && AbsMap(s'.mem, root) == AbsMap(s.mem, root)
  {
    hide AbsMap, Positions, InvExcept;
    assert AbsMap(s.mem, root) - d == AbsMap(s.mem, root);
    forall p: nat | p in s.role && s.role[p].Frame? && s.role[p].root == root
      ensures s.role[p].vpn !in d
    {
      FrameIsMapped(s, p, root, s.role[p].vpn);
    }
  }

  /** Undoing touches no other tree. */
  lemma UndoneOthers(s: View, s': View, root: nat, d: set<nat>, other: nat)
    requires Inv(s) && Undone(s, s', root, d) && IsRoot(s, other) && other != root
    ensures IsRoot(s', other) && AbsMap(s'.mem, other) == AbsMap(s.mem, other)
  {
    hide AbsMap, Positions, FreeListOk, EdgesOk, LeavesOk, NodesOk, FramesOk;
    SameLookup(s, s'.mem, other);
  }

  /** The old map is restored exactly if nothing was mapped at d before. */
  lemma UndoneExact(s: View, s': View, root: nat, d: set<nat>)
    requires Undone(s, s', root, d)
    ensures AbsMap(s'.mem, root) == AbsMap(s.mem, root) <==> AbsMap(s.mem, root).Keys !! d
  {
    hide AbsMap, Positions, UndoneRoles;
    if v :| v in AbsMap(s.mem, root) && v in d {
      assert v !in AbsMap(s'.mem, root);
    }
  }

  lemma ReleasedSize(s: View, s': View, root: nat, d: set<nat>)
    requires Released(s, s', root, d, Free)
    ensures |s'.free| + |AbsMap(s'.mem, root)| == |s.free| + |AbsMap(s.mem, root)|
  {
    hide AbsMap, ReleaseRole;
  }

  lemma ExpandedSize(s: View, s': View, root: nat, want: map<nat, Want>)
    requires Expanded(s, s', root, want)
    ensures |s.free| + |Positions(s, root)| == |s'.free| + |Positions(s', root)| + |want|
    ensures |Positions(s, root)| <= |Positions(s', root)|
  {
    hide Positions, NeededOf, ExpandedRoles, ExpandedMap;
    assert |want.Keys| == |want|;
    SubsetSize(Positions(s, root), Positions(s', root));
  }

  // ---------------------------------------------------------------- how many pages an expansion needs

  /** A finished expansion took the wanted frames and the missing tables. */
  lemma ExpansionCost(s: View, s': View, root: nat, want: map<nat, Want>)
    requires Expanded(s, s', root, want)
    ensures |s.free| == |s'.free| + |want| + TableCost(s, root, want.Keys)
  {
    hide Positions, NeededOf, ExpandedRoles, ExpandedMap;
    assert |want.Keys| == |want|;
    var p, need := Positions(s, root), NeededOf(want.Keys);
    assert p + need == p + (need - p) && p !! (need - p);
  }

  /** An expansion that cannot get its next page, or the tables for it, had too few pages for all of it. */
  lemma ExpansionShort(s0: View, s: View, root: nat, want: map<nat, Want>, v: nat, full: set<nat>)
    requires Expanded(s0, s, root, want) && v !in want && want.Keys + {v} <= full
    requires |s.free| <= TableCost(s, root, {v})
    ensures |s0.free| < |full| + TableCost(s0, root, full)
  {
    hide Positions, NeededOf, ExpandedRoles, ExpandedMap;
    ExpansionCost(s0, s, root, want);
    var p0, d := Positions(s0, root), want.Keys;
    assert |d| == |want|;
    var nd, nv, nf := NeededOf(d), NeededOf({v}), NeededOf(full);
    NeededOfUnion(d, {v});
    NeededOfMono(d + {v}, full);
    assert (nd + nv) - p0 == (nd - p0) + (nv - (p0 + nd)) && (nd - p0) !! (nv - (p0 + nd));
    assert (nd + nv) - p0 <= nf - p0;
    SubsetSize((nd + nv) - p0, nf - p0);
    assert |d + {v}| == |d| + 1;
    SubsetSize(d + {v}, full);
  }

  lemma ExpandedUnmapped(s0: View, s: View, root: nat, want: map<nat, Want>, v: nat)
    requires Expanded(s0, s, root, want) && v !in want && v !in AbsMap(s0.mem, root)
    ensures v !in AbsMap(s.mem, root)
  {
    hide AbsMap, ExpandedRoles, ExpandedCount, NewPage;
  }

  lemma GrownRefl(s: View, root: nat)
    ensures Grown(s, s, root)
  {
    hide Positions;
  }

  lemma SameCost(s: View, s1: View, root: nat, d: set<nat>)
    requires Positions(s1, root) == Positions(s, root)
    ensures TableCost(s1, root, d) == TableCost(s, root, d)
  {
    hide Positions, NeededOf;
  }

  /** Expanding one tree leaves the others alone. */
  lemma ExpandedOthers(s: View, s': View, root: nat, want: map<nat, Want>, other: nat)
    requires Inv(s) && Expanded(s, s', root, want) && IsRoot(s, other)
    ensures IsRoot(s', other)
    ensures other != root ==> AbsMap(s'.mem, other) == AbsMap(s.mem, other)
  {
    hide AbsMap, ExpandedCount, ExpandedMap, FreeListOk, EdgesOk, LeavesOk, NodesOk, FramesOk;
    if other != root {
      SameLookup(s, s'.mem, other);
    }
  }

  // ---------------------------------------------------------------- copying an address space

  /** Page q can be read while another tree grows: it is memory, and neither free nor a table. */
  predicate Readable(s: View, q: nat) {
    q < |s.mem| && (q in s.role ==> s.role[q] != Free && !s.role[q].Table?)
  }

  /** A copy of every page below n that `parent` maps: the same flags and contents. */
  ghost function CopyWant(s: View, parent: nat, n: nat): map<nat, Want> {
    map v | v in AbsMap(s.mem, parent) && v < n && Ppn(AbsMap(s.mem, parent)[v]) < |s.mem| ::
      Want(PteFlags(AbsMap(s.mem, parent)[v]), s.mem[Ppn(AbsMap(s.mem, parent)[v])])
  }

  lemma CopyWantStep(s: View, parent: nat, v: nat)
    requires v in AbsMap(s.mem, parent) ==> Ppn(AbsMap(s.mem, parent)[v]) < |s.mem|
    ensures v !in CopyWant(s, parent, v)
    ensures CopyWant(s, parent, v).Keys <= CopyWant(s, parent, v + 1).Keys
    ensures v !in AbsMap(s.mem, parent) ==> CopyWant(s, parent, v + 1) == CopyWant(s, parent, v)
    ensures v in AbsMap(s.mem, parent) ==>
              var w := AbsMap(s.mem, parent)[v];
              && v in CopyWant(s, parent, v + 1)
              && CopyWant(s, parent, v + 1) == CopyWant(s, parent, v)[v := Want(PteFlags(w), s.mem[Ppn(w)])]
  {
    hide AbsMap, Ppn, PteFlags;
  }

  lemma CopyWantMono(s: View, parent: nat, j: nat, n: nat)
    requires j <= n
    ensures CopyWant(s, parent, j).Keys <= CopyWant(s, parent, n).Keys
    ensures CopyWant(s, parent, j).Keys <= Pages(0, j)
  {
    hide AbsMap, Ppn, PteFlags;
  }

  lemma CopyWantEmpty(s: View, parent: nat)
    ensures CopyWant(s, parent, 0) == map[]
  {
    hide AbsMap, Ppn, PteFlags;
  }

  /** What a copied address space is: below n the child maps what it did and what the parent maps, the latter with equal
      flags and contents, to frames that are not the parent's; the parent still maps what it did. */
  lemma CopyMeaning(s: View, s': View, parent: nat, child: nat, n: nat, v: nat)
    requires Inv(s) && Inv(s') && IsRoot(s, parent) && IsRoot(s, child) && parent != child && v < n
    requires forall u :: u in AbsMap(s.mem, parent) && u < n ==> Readable(s, Ppn(AbsMap(s.mem, parent)[u]))
    requires Expanded(s, s', child, CopyWant(s, parent, n))
    ensures AbsMap(s'.mem, parent) == AbsMap(s.mem, parent)
    ensures v in AbsMap(s'.mem, child) <==> v in AbsMap(s'.mem, parent) || v in AbsMap(s.mem, child)
    ensures v in AbsMap(s.mem, child) ==>
              v !in AbsMap(s.mem, parent) && AbsMap(s'.mem, child)[v] == AbsMap(s.mem, child)[v]
    ensures v in AbsMap(s'.mem, parent) ==>
              var c, p := AbsMap(s'.mem, child)[v], AbsMap(s'.mem, parent)[v];
              && PteFlags(c) == PteFlags(p)
              && Ppn(c) < |s'.mem| && Ppn(p) < |s'.mem| && s'.mem[Ppn(c)] == s'.mem[Ppn(p)]
              && Ppn(c) in s.role && s.role[Ppn(c)] == Free && Ppn(c) != Ppn(p)
  {
    hide AbsMap, FreeListOk, EdgesOk, LeavesOk, NodesOk, FramesOk, ExpandedCount, Ppn, PteFlags, MakePte, IsValid,
         IsLeaf;
    var want := CopyWant(s, parent, n);
    ExpandedOthers(s, s', child, want, parent);
    if v in AbsMap(s.mem, parent) {
      var p := AbsMap(s.mem, parent)[v];
      assert Readable(s, Ppn(p)) && v in want;
      assert NewPage(s, s', child, v, want[v]);
      MappedIsValid(s, parent, v);
      FlagsOfEntry(p);
      MakePteFields(Ppn(AbsMap(s'.mem, child)[v]), PteFlags(p));
    }
  }

  /** The free pages that copying everything below n takes: frames, and the tables that are missing. */
  ghost function CopyCost(s: View, parent: nat, child: nat, n: nat): nat {
    |CopyWant(s, parent, n)| + TableCost(s, child, CopyWant(s, parent, n).Keys)
  }

  /** Page j is where the copy runs out: the free pages suffice below it, but not with it. */
  ghost predicate CopyFailsAt(s: View, parent: nat, child: nat, j: nat) {
    j in AbsMap(s.mem, parent) && CopyCost(s, parent, child, j) <= |s.free| < CopyCost(s, parent, child, j + 1)
  }

  lemma CopyPaid(s: View, s': View, parent: nat, child: nat, n: nat)
    requires Expanded(s, s', child, CopyWant(s, parent, n))
    ensures |s.free| == |s'.free| + CopyCost(s, parent, child, n)
  {
    hide Expanded, CopyWant, TableCost;
    ExpansionCost(s, s', child, CopyWant(s, parent, n));
  }

  /** A copy that cannot get page j, or the tables for it, fails there. */
  lemma CopyShort(s0: View, s: View, parent: nat, child: nat, n: nat, j: nat)
    requires Expanded(s0, s, child, CopyWant(s0, parent, j)) && j < n && j in AbsMap(s0.mem, parent)
    requires j !in CopyWant(s0, parent, j) && j in CopyWant(s0, parent, j + 1)
    requires |s.free| <= TableCost(s, child, {j})
    ensures CopyFailsAt(s0, parent, child, j) && |s0.free| < CopyCost(s0, parent, child, n)
  {
    hide Expanded, CopyWant, TableCost, AbsMap;
    var want, one, all := CopyWant(s0, parent, j), CopyWant(s0, parent, j + 1), CopyWant(s0, parent, n);
    CopyWantMono(s0, parent, j, j + 1);
    CopyWantMono(s0, parent, j + 1, n);
    assert |one.Keys| == |one| && |all.Keys| == |all|;
    CopyPaid(s0, s, parent, child, j);
    ExpansionShort(s0, s, child, want, j, one.Keys);
    ExpansionShort(s0, s, child, want, j, all.Keys);
  }

  lemma CopyCostMono(s: View, parent: nat, child: nat, j: nat, n: nat)
    requires j <= n
    ensures CopyCost(s, parent, child, j) <= CopyCost(s, parent, child, n)
  {
    hide CopyWant, Positions, NeededOf;
    var a, b := CopyWant(s, parent, j), CopyWant(s, parent, n);
    CopyWantMono(s, parent, j, n);
    assert |a.Keys| == |a| && |b.Keys| == |b|;
    SubsetSize(a.Keys, b.Keys);
    NeededOfMono(a.Keys, b.Keys);
    SubsetSize(NeededOf(a.Keys) - Positions(s, child), NeededOf(b.Keys) - Positions(s, child));
  }

  /** Where a copy fails is determined before it starts: there is such a page exactly if the free pages do not suffice,
      and only one. */
  lemma CopyFailsOnce(s: View, parent: nat, child: nat, n: nat)
    requires forall v :: v in AbsMap(s.mem, parent) && v < n ==> Readable(s, Ppn(AbsMap(s.mem, parent)[v]))
    ensures (exists j: nat :: j < n && CopyFailsAt(s, parent, child, j)) <==> |s.free| < CopyCost(s, parent, child, n)
    ensures forall i: nat, j: nat :: CopyFailsAt(s, parent, child, i) && CopyFailsAt(s, parent, child, j) ==> i == j
  {
    hide AbsMap, CopyCost, Readable, Ppn;
    forall i: nat, j: nat | CopyFailsAt(s, parent, child, i) && CopyFailsAt(s, parent, child, j) ensures i == j {
      if i < j {
        CopyCostMono(s, parent, child, i + 1, j);
      } else if j < i {
        CopyCostMono(s, parent, child, j + 1, i);
      }
    }
    if j: nat :| j < n && CopyFailsAt(s, parent, child, j) {
      CopyCostMono(s, parent, child, j + 1, n);
    }
    if |s.free| < CopyCost(s, parent, child, n) {
      var j := FailingPage(s, parent, child, n);
    }
  }

  lemma {:induction false} FailingPage(s: View, parent: nat, child: nat, n: nat) returns (j: nat)
    requires forall v :: v in AbsMap(s.mem, parent) && v < n ==> Readable(s, Ppn(AbsMap(s.mem, parent)[v]))
    requires |s.free| < CopyCost(s, parent, child, n)
    ensures j < n && CopyFailsAt(s, parent, child, j)
  {
    hide AbsMap, CopyWant, TableCost, Ppn;
    CopyWantEmpty(s, parent);
    NothingNeeded(s, child);
    if CopyCost(s, parent, child, n - 1) <= |s.free| {
      j := n - 1;
      if j !in AbsMap(s.mem, parent) {
        CopyWantStep(s, parent, j);
      }
    } else {
      j := FailingPage(s, parent, child, n - 1);
    }
  }

  lemma NothingNeeded(s: View, root: nat)
    ensures TableCost(s, root, {}) == 0
  {
    hide Positions;
    assert NeededOf({}) == {};
  }

  /** All or nothing: a copy that fails leaves the child's map as it was exactly if the child maps nothing below the
      page at which the free pages run out. */
  lemma CopyAllOrNothing(s: View, s': View, parent: nat, child: nat, n: nat, j: nat)
    requires forall v :: v in AbsMap(s.mem, parent) && v < n ==> Readable(s, Ppn(AbsMap(s.mem, parent)[v]))
    requires j < n && CopyFailsAt(s, parent, child, j)
    requires exists i: nat :: i < n && CopyFailsAt(s, parent, child, i) && Undone(s, s', child, Pages(0, i))
    ensures AbsMap(s'.mem, child) == AbsMap(s.mem, child) <==> forall v: nat :: v < j ==> v !in AbsMap(s.mem, child)
  {
    hide AbsMap, CopyFailsAt, Undone, Readable, Pages;
    CopyFailsOnce(s, parent, child, n);
    UndoneExact(s, s', child, Pages(0, j));
    PagesBelow(AbsMap(s.mem, child), j);
  }

  lemma PagesBelow(m: map<nat, Word>, j: nat)
    ensures m.Keys !! Pages(0, j) <==> forall v: nat :: v < j ==> v !in m
  {
    forall v: nat | v < j ensures v in Pages(0, j) {
      assert InRange(0, j, v);
    }
  }

  lemma MappedIsValid(s: View, root: nat, v: nat)
    requires Inv(s) && IsRoot(s, root) && v in AbsMap(s.mem, root)
    ensures v < NVPN && IsValid(AbsMap(s.mem, root)[v]) && IsLeaf(AbsMap(s.mem, root)[v])
  {
    hide TableAt, IsValid, IsLeaf, Ppn, MakePte, Px, EdgesOk, NodesOk, FramesOk, FreeListOk;
    NotMapped(s, root, v);
    NoLeafEntry(s, root, v);
    var t, i := LookupIsSlot(s, root, v);
    assert LeafOk(s, t, i);
  }
}
