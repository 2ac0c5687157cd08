/** Physical memory, the free list and every page table as one value, and what keeps them apart.

    Each managed page has a role. A table page's role names its place in the radix tree (root, level,
    prefix of the page number) and the parent slot it hangs from, so the role map says at once that a
    page is in one tree only, at one place only, below one slot only. */
module PageTable {
  import opened Riscv
  import opened Wrappers

  datatype Role =
    | Free
    | Held(owner: nat)            // in use, and neither a table nor freed with a mapping; 0: just allocated
    | Table(root: nat, level: nat, prefix: nat, parent: nat, slot: nat)
    | Frame(root: nat, vpn: nat, table: nat, slot: nat)      // mapped, to be freed with its mapping

  type Memory = seq<seq<Word>>

  datatype View = View(mem: Memory, head: Word, free: seq<nat>, role: map<nat, Role>)

  // ---------------------------------------------------------------- the invariant

  ghost predicate Shape(s: View) {
    && |s.mem| <= MAXPAGES
    && (forall p :: 0 <= p < |s.mem| ==> |s.mem[p]| == SLOTS)
    && (forall p :: p in s.role ==> 0 < p < |s.mem|)
  }

  /** What the list holds in place of the address of its k-th element. */
  function ListAddr(free: seq<nat>, k: nat): nat {
    if k < |free| then free[k] * 4096 else 0
  }

  /** The k-th page of the list is free and holds the link to the next one in its first word. */
  ghost predicate LinkOk(s: View, k: nat)
    requires Shape(s) && k < |s.free|
  {
    && s.free[k] in s.role
    && s.role[s.free[k]] == Free
    && s.mem[s.free[k]][0] == ListAddr(s.free, k + 1)
  }

  ghost predicate FreeListOk(s: View)
    requires Shape(s)
  {
    && s.head == ListAddr(s.free, 0)
    && (forall k: nat {:trigger LinkOk(s, k)} :: k < |s.free| ==> LinkOk(s, k))
    && (forall j, k :: 0 <= j < k < |s.free| ==> s.free[j] != s.free[k])
    && (forall p :: p in s.role && s.role[p] == Free ==> p in s.free)
  }

  predicate IsRoot(s: View, r: nat) {
    r in s.role && s.role[r] == Table(r, 2, 0, r, 0)
  }

  predicate IsTable(s: View, p: nat) {
    p in s.role && s.role[p].Table?
  }

  predicate TableOf(s: View, p: nat, root: nat) {
    IsTable(s, p) && s.role[p].root == root
  }

  /** A table page hangs below its parent, at the slot its place names; a root below nothing. */
  ghost predicate NodeOk(s: View, p: nat)
    requires Shape(s) && IsTable(s, p)
  {
    var t := s.role[p];
    && t.level <= 2
    && IsRoot(s, t.root)
    && (t.level == 2 ==> p == t.root)
    && (t.level < 2 ==>
          && TableOf(s, t.parent, t.root)
          && s.role[t.parent].level == t.level + 1
          && t.slot < SLOTS
          && t.prefix == s.role[t.parent].prefix * 512 + t.slot
          && s.mem[t.parent][t.slot] == MakePte(p, 0))
  }

  /** A valid entry of an interior table has no flag but V and points to the table at the place below it. */
  ghost predicate EdgeOk(s: View, p: nat, i: nat)
    requires Shape(s) && IsTable(s, p) && s.role[p].level > 0 && i < SLOTS
  {
    IsValid(s.mem[p][i]) ==>
      var t, c := s.role[p], Ppn(s.mem[p][i]);
      && c in s.role
      && s.role[c] == Table(t.root, t.level - 1, t.prefix * 512 + i, p, i)
      && s.mem[p][i] == MakePte(c, 0)
  }

  ghost predicate LeafOk(s: View, p: nat, i: nat)
    requires Shape(s) && IsTable(s, p) && i < SLOTS
  {
    IsValid(s.mem[p][i]) ==> IsLeaf(s.mem[p][i])
  }

  ghost predicate FrameOk(s: View, p: nat)
    requires Shape(s) && p in s.role && s.role[p].Frame?
  {
    var f := s.role[p];
    && TableOf(s, f.table, f.root)
    && s.role[f.table].level == 0
    && f.slot < SLOTS
    && f.vpn == s.role[f.table].prefix * 512 + f.slot
    && IsValid(s.mem[f.table][f.slot])
    && Ppn(s.mem[f.table][f.slot]) == p
  }

  ghost predicate NodesOk(s: View)
    requires Shape(s)
  {
    forall p {:trigger NodeOk(s, p)} :: IsTable(s, p) ==> NodeOk(s, p)
  }

  /** Every edge is in order, but for the slots in `holes`, whose subtree is being taken down. */
  ghost predicate EdgesOk(s: View, holes: set<(nat, nat)>)
    requires Shape(s)
  {
    forall p, i: nat {:trigger EdgeOk(s, p, i)} ::
      IsTable(s, p) && s.role[p].level > 0 && i < SLOTS && (p, i) !in holes ==> EdgeOk(s, p, i)
  }

  ghost predicate LeavesOk(s: View)
    requires Shape(s)
  {
    forall p, i: nat {:trigger LeafOk(s, p, i)} :: IsTable(s, p) && s.role[p].level == 0 && i < SLOTS ==>
      LeafOk(s, p, i)
  }

  ghost predicate FramesOk(s: View)
    requires Shape(s)
  {
    forall p {:trigger FrameOk(s, p)} :: p in s.role && s.role[p].Frame? ==> FrameOk(s, p)
  }

  ghost predicate InvExcept(s: View, holes: set<(nat, nat)>) {
    Shape(s) && FreeListOk(s) && NodesOk(s) && EdgesOk(s, holes) && LeavesOk(s) && FramesOk(s)
  }

  ghost predicate Inv(s: View) {
    InvExcept(s, {})
  }

  // ---------------------------------------------------------------- what a tree means

  /** The page-number bits above a level-`level` table's own index. */
  function Prefix(level: nat, vpn: nat): nat {
    if level == 0 then vpn / 512 else if level == 1 then vpn / 0x4_0000 else 0
  }

  /** The valid entry at slot i of page p, if there is one. */
  function Entry(mem: Memory, p: nat, i: nat): Option<Word> {
    if p < |mem| && i < |mem[p]| && IsValid(mem[p][i]) then Some(mem[p][i]) else None
  }

  /** The table page at `level` on the way from `root` to `vpn`. */
  function TableAt(mem: Memory, root: nat, vpn: nat, level: nat): Option<nat>
    decreases 2 - level
  {
    if level >= 2 then Some(root)
    else
      match TableAt(mem, root, vpn, level + 1)
      case None => None
      case Some(p) =>
        match Entry(mem, p, Px(level + 1, vpn))
        case None => None
        case Some(w) => Some(Ppn(w))
  }

  function Lookup(mem: Memory, root: nat, vpn: nat): Option<Word> {
    match TableAt(mem, root, vpn, 0)
    case None => None
    case Some(p) => Entry(mem, p, Px(0, vpn))
  }

  /** The simple thing a page table stands for: a map from page numbers to leaf entries. */
  ghost function AbsMap(mem: Memory, root: nat): map<nat, Word> {
    map vpn: nat | 0 <= vpn < NVPN && Lookup(mem, root, vpn).Some? :: Lookup(mem, root, vpn).value
  }

  /** The places (level, prefix) at which a tree has a table page. */
  ghost function Positions(s: View, root: nat): set<(nat, nat)> {
    set p | p in s.role && TableOf(s, p, root) :: (s.role[p].level, s.role[p].prefix)
  }

  // ---------------------------------------------------------------- roles and lookups agree

  lemma PrefixStep(level: nat, vpn: nat)
    requires 0 < level <= 2 && vpn < NVPN
    ensures Prefix(level - 1, vpn) == Prefix(level, vpn) * 512 + Px(level, vpn)
    ensures Px(level, vpn) < 512
  {
  }

  lemma SplitUnique(a: nat, i: nat, b: nat, j: nat)
    requires i < 512 && j < 512 && a * 512 + i == b * 512 + j
    ensures a == b && i == j
  {
  }

  /** The table reached at a level is the one whose role names that place. */
  lemma {:induction false} TableAtRole(s: View, root: nat, vpn: nat, level: nat)
    requires Inv(s) && IsRoot(s, root) && vpn < NVPN && level <= 2
    ensures var t := TableAt(s.mem, root, vpn, level);
            t.Some? ==>
              && TableOf(s, t.value, root)
              && s.role[t.value].level == level && s.role[t.value].prefix == Prefix(level, vpn)
    decreases 2 - level
  {
    hide Px, Ppn, IsValid, MakePte;
    if level < 2 {
      TableAtRole(s, root, vpn, level + 1);
      PrefixStep(level + 1, vpn);
      var t := TableAt(s.mem, root, vpn, level + 1);
      if t.Some? {
        assert EdgeOk(s, t.value, Px(level + 1, vpn));
      }
    }
  }

  /** A table page is reached by every page number that its place covers. */
  lemma {:induction false} RoleTableAt(s: View, p: nat, vpn: nat)
    requires Inv(s) && IsTable(s, p) && vpn < NVPN && s.role[p].prefix == Prefix(s.role[p].level, vpn)
    ensures TableAt(s.mem, s.role[p].root, vpn, s.role[p].level) == Some(p)
    decreases 2 - s.role[p].level
  {
    hide Px, Prefix, Ppn, IsValid, MakePte;
    assert NodeOk(s, p);
    var t := s.role[p];
    if t.level < 2 {
      PrefixStep(t.level + 1, vpn);
      SplitUnique(Prefix(t.level + 1, vpn), Px(t.level + 1, vpn), s.role[t.parent].prefix, t.slot);
      RoleTableAt(s, t.parent, vpn);
      MakePteFields(p, 0);
    }
  }

  /** How large a prefix can be at each level. */
  function PrefixBound(level: nat): nat {
    if level == 0 then 0x4_0000 else if level == 1 then 512 else 1
  }

  lemma {:induction false} PlaceRange(s: View, p: nat)
    requires Inv(s) && IsTable(s, p)
    ensures s.role[p].level <= 2 && s.role[p].prefix < PrefixBound(s.role[p].level)
    decreases 2 - s.role[p].level
  {
    hide MakePte, IsValid, Ppn;
    assert NodeOk(s, p);
    if s.role[p].level < 2 {
      PlaceRange(s, s.role[p].parent);
    }
  }

  /** The first page number that a place covers. */
  function PlaceBase(level: nat, prefix: nat): nat {
    if level == 0 then prefix * 512 else if level == 1 then prefix * 0x4_0000 else 0
  }

  lemma PlaceBasePrefix(level: nat, prefix: nat)
    requires level <= 2 && prefix < PrefixBound(level)
    ensures PlaceBase(level, prefix) < NVPN && Prefix(level, PlaceBase(level, prefix)) == prefix
  {
  }

  /** No two table pages of a tree share a place. */
  lemma PlaceIsUnique(s: View, p: nat, q: nat)
    requires Inv(s) && IsTable(s, p) && IsTable(s, q)
    requires s.role[p].root == s.role[q].root && s.role[p].level == s.role[q].level
             && s.role[p].prefix == s.role[q].prefix
    ensures p == q
  {
    hide Prefix, TableAt, PlaceBase;
    PlaceRange(s, p);
    var vpn := PlaceBase(s.role[p].level, s.role[p].prefix);
    PlaceBasePrefix(s.role[p].level, s.role[p].prefix);
    RoleTableAt(s, p, vpn);
    RoleTableAt(s, q, vpn);
  }

  // ---------------------------------------------------------------- steps on the state

  function SetWord(s: View, p: nat, i: nat, w: Word): View
    requires p < |s.mem| && i < |s.mem[p]|
  {
    var page: seq<Word> := s.mem[p][i := w];
    s.(mem := s.mem[p := page])
  }

  function SetPage(s: View, p: nat, page: seq<Word>): View
    requires p < |s.mem|
  {
    s.(mem := s.mem[p := page])
  }

  function SetRole(s: View, p: nat, r: Role): View {
    s.(role := s.role[p := r])
  }

  function Filled(w: Word): seq<Word> {
    seq(512, _ => w)
  }

  const JUNK_ALLOCATED: Word := 0x0505_0505_0505_0505
  const JUNK_FREED: Word := 0x0101_0101_0101_0101

  /** kalloc on a non-empty list. */
  function Pop(s: View): View
    requires |s.free| > 0 && s.free[0] < |s.mem| && ListAddr(s.free, 1) < WORD_MODULUS
  {
    s.(mem := s.mem[s.free[0] := Filled(JUNK_ALLOCATED)],
       head := ListAddr(s.free, 1),
       free := s.free[1..],
       role := s.role[s.free[0] := Held(0)])
  }

  /** kfree. */
  function Push(s: View, p: nat): View
    requires p < |s.mem| && p < MAXPAGES
  {
    var page: seq<Word> := Filled(JUNK_FREED)[0 := s.head];
    s.(mem := s.mem[p := page],
       head := p * 4096,
       free := [p] + s.free,
       role := s.role[p := Free])
  }

  /** Page c becomes the table below slot i of table p. */
  function LinkTable(s: View, p: nat, i: nat, c: nat): View
    requires p < |s.mem| && i < |s.mem[p]| && c < MAXPAGES && IsTable(s, p) && s.role[p].level > 0
  {
    var t := s.role[p];
    SetRole(SetWord(s, p, i, MakePte(c, 0)), c, Table(t.root, t.level - 1, t.prefix * 512 + i, p, i))
  }

  // ---------------------------------------------------------------- every step keeps the invariant

  lemma PopInv(s: View)
    requires Inv(s) && |s.free| > 0
    ensures LinkOk(s, 0) && ListAddr(s.free, 1) < WORD_MODULUS
    ensures Inv(Pop(s))
  {
    hide IsValid, Ppn, MakePte, IsLeaf;
    assert LinkOk(s, 0);
    if |s.free| > 1 {
      assert LinkOk(s, 1);
    }
    var s' := Pop(s);
    forall k: nat | k < |s'.free| ensures LinkOk(s', k) {
      assert LinkOk(s, k + 1);
    }
    TablesKept(s, s', {});
  }

  /** The part of the invariant about trees and mapped frames depends on table pages and those roles only. */
  lemma TablesKept(s: View, s': View, holes: set<(nat, nat)>)
    requires InvExcept(s, holes) && Shape(s') && |s.mem| == |s'.mem|
    requires forall p: nat :: IsTable(s, p) ==> IsTable(s', p) && s'.role[p] == s.role[p] && s'.mem[p] == s.mem[p]
    requires forall p: nat :: IsTable(s', p) ==> IsTable(s, p)
    requires forall p: nat :: p in s'.role && s'.role[p].Frame? ==> p in s.role && s'.role[p] == s.role[p]
    ensures NodesOk(s') && EdgesOk(s', holes) && LeavesOk(s') && FramesOk(s')
  {
    hide IsValid, Ppn, MakePte, IsLeaf, FreeListOk;
    forall p | IsTable(s', p) ensures NodeOk(s', p) {
      assert NodeOk(s, p);
    }
    forall p, i: nat | IsTable(s', p) && s'.role[p].level > 0 && i < SLOTS
        && (p, i) !in holes ensures EdgeOk(s', p, i) {
      assert EdgeOk(s, p, i);
    }
    forall p, i: nat | IsTable(s', p) && s'.role[p].level == 0 && i < SLOTS ensures LeafOk(s', p, i) {
      assert LeafOk(s, p, i);
    }
    forall p | p in s'.role && s'.role[p].Frame? ensures FrameOk(s', p) {
      assert FrameOk(s, p);
    }
  }

  /** The free list depends on the free pages only. */
  lemma FreeKept(s: View, s': View)
    requires Shape(s) && FreeListOk(s) && Shape(s') && |s.mem| == |s'.mem|
    requires s'.free == s.free && s'.head == s.head
    requires forall p: nat :: p in s.role && s.role[p] == Free ==>
               p in s'.role && s'.role[p] == Free && s'.mem[p] == s.mem[p]
    requires forall p: nat :: p in s'.role && s'.role[p] == Free ==> p in s.role && s.role[p] == Free
    ensures FreeListOk(s')
  {
    forall k: nat | k < |s'.free| ensures LinkOk(s', k) {
      assert LinkOk(s, k);
    }
  }

  /** Listed pages are free. */
  lemma ListedIsFree(s: View, p: nat)
    requires Shape(s) && FreeListOk(s) && p in s.free
    ensures p in s.role && s.role[p] == Free
  {
    var k :| 0 <= k < |s.free| && s.free[k] == p;
    assert LinkOk(s, k);
  }

  lemma PushInv(s: View, p: nat, holes: set<(nat, nat)>)
    requires InvExcept(s, holes) && p in s.role && s.role[p].Held?
    ensures InvExcept(Push(s, p), holes)
  {
    hide IsValid, Ppn, MakePte, IsLeaf;
    var s' := Push(s, p);
    forall k: nat | k < |s'.free| ensures LinkOk(s', k) {
      if k > 0 {
        assert LinkOk(s, k - 1);
      }
    }
    forall j, k | 0 <= j < k < |s'.free| ensures s'.free[j] != s'.free[k] {
      assert LinkOk(s, k - 1);
    }
    TablesKept(s, s', holes);
  }

  /** Rewriting a page that is neither free nor a table, and relabelling its holder. */
  lemma HeldInv(s: View, p: nat, page: seq<Word>, owner: nat)
    requires Inv(s) && p in s.role && (s.role[p].Held? || s.role[p].Frame?) && |page| == SLOTS
    ensures Inv(SetRole(SetPage(s, p, page), p, Held(owner)))
    ensures Inv(SetPage(s, p, page))
  {
    hide IsValid, Ppn, MakePte, IsLeaf;
    var s1 := SetPage(s, p, page);
    var s2 := SetRole(s1, p, Held(owner));
    forall k: nat | k < |s.free| ensures LinkOk(s1, k) && LinkOk(s2, k) {
      assert LinkOk(s, k);
    }
    TablesKept(s, s1, {});
    TablesKept(s, s2, {});
  }

  /** A held page whose entries are all zero becomes the root of an empty tree. */
  lemma NewRootInv(s: View, p: nat)
    requires Inv(s) && p in s.role && s.role[p].Held? && s.mem[p] == Filled(0)
    ensures var s' := SetRole(s, p, Table(p, 2, 0, p, 0));
            Inv(s') && IsRoot(s', p)
  {
    hide Ppn, MakePte, IsLeaf, FreeListOk;
    var s' := SetRole(s, p, Table(p, 2, 0, p, 0));
    FreeKept(s, s');
    forall q: nat | IsTable(s', q) ensures NodeOk(s', q) {
      assert q != p ==> NodeOk(s, q);
    }
    forall q: nat, i: nat | IsTable(s', q) && s'.role[q].level > 0 && i < SLOTS ensures EdgeOk(s', q, i) {
      assert q != p ==> EdgeOk(s, q, i);
    }
    forall q: nat, i: nat | IsTable(s', q) && s'.role[q].level == 0 && i < SLOTS ensures LeafOk(s', q, i) {
      assert LeafOk(s, q, i);
    }
    forall q | q in s'.role && s'.role[q].Frame? ensures FrameOk(s', q) {
      assert FrameOk(s, q);
    }
  }

  /** A held page becomes the frame of the entry that points to it. */
  lemma AdoptInv(s: View, p: nat, t: nat, slot: nat)
    requires Inv(s) && p in s.role && s.role[p].Held? && IsTable(s, t) && s.role[t].level == 0 && slot < SLOTS
    requires IsValid(s.mem[t][slot]) && Ppn(s.mem[t][slot]) == p
    ensures Inv(SetRole(s, p, Frame(s.role[t].root, s.role[t].prefix * 512 + slot, t, slot)))
  {
    hide IsValid, Ppn, MakePte, IsLeaf, FreeListOk;
    var s' := SetRole(s, p, Frame(s.role[t].root, s.role[t].prefix * 512 + slot, t, slot));
    FreeKept(s, s');
    forall q: nat | IsTable(s', q) ensures NodeOk(s', q) {
      assert NodeOk(s, q);
    }
    forall q: nat, i: nat | IsTable(s', q) && s'.role[q].level > 0 && i < SLOTS ensures EdgeOk(s', q, i) {
      assert EdgeOk(s, q, i);
    }
    forall q: nat, i: nat | IsTable(s', q) && s'.role[q].level == 0 && i < SLOTS ensures LeafOk(s', q, i) {
      assert LeafOk(s, q, i);
    }
    forall q | q in s'.role && s'.role[q].Frame? ensures FrameOk(s', q) {
      assert q != p ==> FrameOk(s, q);
    }
  }

  /** Linking a zeroed page below an empty slot. */
  lemma LinkTableInv(s: View, p: nat, i: nat, c: nat)
    requires Inv(s) && IsTable(s, p) && 0 < s.role[p].level && i < SLOTS && !IsValid(s.mem[p][i])
    requires c in s.role && s.role[c].Held? && s.mem[c] == Filled(0)
    ensures Inv(LinkTable(s, p, i, c))
  {
    var s' := LinkTable(s, p, i, c);
    assert !IsValid(0);
    hide IsValid, Ppn, MakePte, IsLeaf, FreeListOk;
    LinkTableNodes(s, p, i, c);
    FreeKept(s, s');
    forall q: nat, j: nat | IsTable(s', q) && s'.role[q].level > 0 && j < SLOTS ensures EdgeOk(s', q, j) {
      if q != c {
        assert EdgeOk(s, q, j);
      }
      MakePteFields(c, 0);
    }
    forall q: nat, j: nat | IsTable(s', q) && s'.role[q].level == 0 && j < SLOTS ensures LeafOk(s', q, j) {
      if q != c {
        assert LeafOk(s, q, j);
      }
    }
    forall q | q in s'.role && s'.role[q].Frame? ensures FrameOk(s', q) {
      assert FrameOk(s, q);
    }
  }

  lemma LinkTableNodes(s: View, p: nat, i: nat, c: nat)
    requires Inv(s) && IsTable(s, p) && 0 < s.role[p].level && i < SLOTS && !IsValid(s.mem[p][i])
    requires c in s.role && s.role[c].Held?
    ensures Shape(LinkTable(s, p, i, c)) && NodesOk(LinkTable(s, p, i, c))
  {
    hide IsValid, Ppn, MakePte, IsLeaf, FreeListOk, EdgesOk, LeavesOk, FramesOk;
    var s' := LinkTable(s, p, i, c);
    assert NodeOk(s, p);
    forall q: nat | IsTable(s', q) ensures NodeOk(s', q) {
      if q != c {
        assert NodeOk(s, q);
        if s.role[q].level < 2 && s.role[q].parent == p && s.role[q].slot == i {
          MakePteFields(q, 0);
        }
      }
    }
  }

  /** Writing a leaf slot that no owned frame hangs from. */
  lemma SetLeafInv(s: View, t: nat, i: nat, w: Word)
    requires Inv(s) && IsTable(s, t) && s.role[t].level == 0 && i < SLOTS && (IsValid(w) ==> IsLeaf(w))
    requires forall q: nat :: q in s.role && s.role[q].Frame? ==> s.role[q].table != t || s.role[q].slot != i
    ensures Inv(SetWord(s, t, i, w))
  {
    hide IsValid, Ppn, MakePte, IsLeaf, FreeListOk;
    var s' := SetWord(s, t, i, w);
    FreeKept(s, s');
    forall q: nat | IsTable(s', q) ensures NodeOk(s', q) {
      assert NodeOk(s, q);
    }
    forall q: nat, j: nat | IsTable(s', q) && s'.role[q].level > 0 && j < SLOTS ensures EdgeOk(s', q, j) {
      assert EdgeOk(s, q, j);
    }
    forall q: nat, j: nat | IsTable(s', q) && s'.role[q].level == 0 && j < SLOTS ensures LeafOk(s', q, j) {
      assert LeafOk(s, q, j);
    }
    forall q | q in s'.role && s'.role[q].Frame? ensures FrameOk(s', q) {
      assert FrameOk(s, q);
    }
  }

  /** A tree that has a table besides its root has a valid entry in its root. */
  lemma {:induction false} RootHasEntry(s: View, q: nat)
    requires Shape(s) && NodesOk(s) && IsTable(s, q) && s.role[q].level < 2
    ensures IsRoot(s, s.role[q].root) && exists i :: 0 <= i < SLOTS && IsValid(s.mem[s.role[q].root][i])
    decreases 2 - s.role[q].level
  {
    hide Ppn, IsLeaf, MakePte, IsValid;
    assert NodeOk(s, q);
    MakePteFields(q, 0);
    var u := s.role[q].parent;
    assert NodeOk(s, u);
    if s.role[u].level < 2 {
      RootHasEntry(s, u);
    }
  }

  /** A table with no valid entry, whose parent slot is a hole, can be taken out of its tree. */
  lemma RetireTableInv(s: View, p: nat, holes: set<(nat, nat)>)
    requires InvExcept(s, holes) && IsTable(s, p)
    requires forall i :: 0 <= i < SLOTS ==> !IsValid(s.mem[p][i])
    requires s.role[p].level < 2 ==> (s.role[p].parent, s.role[p].slot) in holes
    ensures InvExcept(SetRole(s, p, Held(0)), holes)
  {
    hide Ppn, IsLeaf, MakePte, IsValid, FreeListOk, NodesOk;
    var s' := SetRole(s, p, Held(0));
    FreeKept(s, s');
    RetireTableNodes(s, p);
    RootOfTable(s, p);
    forall q: nat, j: nat | IsTable(s', q) && s'.role[q].level > 0 && j < SLOTS
        && (q, j) !in holes ensures EdgeOk(s', q, j) {
      assert EdgeOk(s, q, j);
    }
    forall q: nat, j: nat | IsTable(s', q) && s'.role[q].level == 0 && j < SLOTS ensures LeafOk(s', q, j) {
      assert LeafOk(s, q, j);
    }
    forall q | q in s'.role && s'.role[q].Frame? ensures FrameOk(s', q) {
      assert FrameOk(s, q);
    }
  }

  lemma RetireTableNodes(s: View, p: nat)
    requires Shape(s) && NodesOk(s) && IsTable(s, p)
    requires forall i :: 0 <= i < SLOTS ==> !IsValid(s.mem[p][i])
    ensures NodesOk(SetRole(s, p, Held(0)))
  {
    hide Ppn, IsLeaf, MakePte, IsValid;
    var s' := SetRole(s, p, Held(0));
    forall q: nat | IsTable(s', q) ensures NodeOk(s', q) {
      assert NodeOk(s, q);
      MakePteFields(q, 0);
      if s.role[q].level < 2 {
        RootHasEntry(s, q);
      }
    }
  }

  lemma RootOfTable(s: View, p: nat)
    requires Shape(s) && NodesOk(s) && IsTable(s, p)
    ensures s.role[p].level <= 2 && (s.role[p].level == 2 ==> p == s.role[p].root) && IsRoot(s, s.role[p].root)
  {
    hide MakePte;
    assert NodeOk(s, p);
  }

  /** Zeroing a slot that no table hangs from closes its hole. */
  lemma CloseHoleInv(s: View, p: nat, i: nat, holes: set<(nat, nat)>)
    requires InvExcept(s, holes + {(p, i)}) && IsTable(s, p) && s.role[p].level > 0 && i < SLOTS
    requires forall q: nat :: IsTable(s, q) && s.role[q].level < 2 ==> s.role[q].parent != p || s.role[q].slot != i
    ensures InvExcept(SetWord(s, p, i, 0), holes)
  {
    assert !IsValid(0);
    hide IsValid, Ppn, MakePte, IsLeaf, FreeListOk;
    var s' := SetWord(s, p, i, 0);
    FreeKept(s, s');
    forall q: nat | IsTable(s', q) ensures NodeOk(s', q) {
      assert NodeOk(s, q);
    }
    forall q: nat, j: nat | IsTable(s', q) && s'.role[q].level > 0 && j < SLOTS
        && (q, j) !in holes ensures EdgeOk(s', q, j) {
      if (q, j) != (p, i) {
        assert EdgeOk(s, q, j);
      }
    }
    forall q: nat, j: nat | IsTable(s', q) && s'.role[q].level == 0 && j < SLOTS ensures LeafOk(s', q, j) {
      assert LeafOk(s, q, j);
    }
    forall q | q in s'.role && s'.role[q].Frame? ensures FrameOk(s', q) {
      assert FrameOk(s, q);
    }
  }
}
