/** What each step on the state does to what the trees translate, and to which tables they have. */
module Translation {
  import opened Riscv
  import opened Wrappers
  import opened PageTable
  import opened Sets

  /** A tree's translations depend on its own table pages only. */
  lemma SameLookup(s: View, mem': Memory, root: nat)
    requires Inv(s) && IsRoot(s, root)
    requires forall p: nat :: TableOf(s, p, root) ==> p < |mem'| && mem'[p] == s.mem[p]
    ensures AbsMap(mem', root) == AbsMap(s.mem, root)
    ensures forall vpn, level :: 0 <= vpn < NVPN && 0 <= level <= 2 ==>
              TableAt(mem', root, vpn, level) == TableAt(s.mem, root, vpn, level)
  {
    forall vpn, level | 0 <= vpn < NVPN && 0 <= level <= 2
      ensures TableAt(mem', root, vpn, level) == TableAt(s.mem, root, vpn, level)
    {
      SameTableAt(s, mem', root, vpn, level);
    }
    hide TableAt, Px, IsValid;
    forall vpn | 0 <= vpn < NVPN ensures Lookup(mem', root, vpn) == Lookup(s.mem, root, vpn) {
      TableAtRole(s, root, vpn, 0);
      assert TableAt(mem', root, vpn, 0) == TableAt(s.mem, root, vpn, 0);
    }
  }

  lemma {:induction false} SameTableAt(s: View, mem': Memory, root: nat, vpn: nat, level: nat)
    requires Inv(s) && IsRoot(s, root) && vpn < NVPN && level <= 2
    requires forall p: nat :: TableOf(s, p, root) ==> p < |mem'| && mem'[p] == s.mem[p]
    ensures TableAt(mem', root, vpn, level) == TableAt(s.mem, root, vpn, level)
    decreases 2 - level
  {
    hide Px, IsValid, Ppn, MakePte;
    if level < 2 {
      SameTableAt(s, mem', root, vpn, level + 1);
      TableAtRole(s, root, vpn, level + 1);
    }
  }

  // ---------------------------------------------------------------- linking a table

  /** Linking a zeroed table opens one more level on the paths through it, and translates nothing new. */
  lemma {:induction false} LinkTableAt(s: View, p: nat, i: nat, c: nat, root: nat, vpn: nat, level: nat)
    requires Inv(s) && IsTable(s, p) && 0 < s.role[p].level && i < SLOTS && !IsValid(s.mem[p][i])
    requires c in s.role && s.role[c].Held? && s.mem[c] == Filled(0)
    requires IsRoot(s, root) && vpn < NVPN && level <= 2
    ensures var a, b := TableAt(s.mem, root, vpn, level), TableAt(LinkTable(s, p, i, c).mem, root, vpn, level);
            a == b || (a.None? && b == Some(c) && level + 1 == s.role[p].level)
    decreases 2 - level
  {
    assert !IsValid(0);
    hide IsValid, Ppn, MakePte, Px;
    if level < 2 {
      LinkTableAt(s, p, i, c, root, vpn, level + 1);
      TableAtRole(s, root, vpn, level + 1);
      PxRange(level + 1, vpn);
      MakePteFields(c, 0);
    }
  }

  lemma LinkTableLookup(s: View, p: nat, i: nat, c: nat, root: nat)
    requires Inv(s) && IsTable(s, p) && 0 < s.role[p].level && i < SLOTS && !IsValid(s.mem[p][i])
    requires c in s.role && s.role[c].Held? && s.mem[c] == Filled(0)
    requires IsRoot(s, root)
    ensures AbsMap(LinkTable(s, p, i, c).mem, root) == AbsMap(s.mem, root)
  {
    assert !IsValid(0);
    hide IsValid, Ppn, MakePte, Px, TableAt;
    var mem' := LinkTable(s, p, i, c).mem;
    forall vpn | 0 <= vpn < NVPN ensures Lookup(mem', root, vpn) == Lookup(s.mem, root, vpn) {
      LinkTableAt(s, p, i, c, root, vpn, 0);
      TableAtRole(s, root, vpn, 0);
      PxRange(0, vpn);
    }
  }

  // ---------------------------------------------------------------- writing a leaf

  lemma {:induction false} SetLeafTableAt(s: View, t: nat, i: nat, w: Word, root: nat, vpn: nat, level: nat)
    requires Inv(s) && IsTable(s, t) && s.role[t].level == 0 && i < SLOTS
    requires IsRoot(s, root) && vpn < NVPN && level <= 2
    ensures TableAt(SetWord(s, t, i, w).mem, root, vpn, level) == TableAt(s.mem, root, vpn, level)
    decreases 2 - level
  {
    hide IsValid, Ppn, MakePte, Px;
    if level < 2 {
      SetLeafTableAt(s, t, i, w, root, vpn, level + 1);
      TableAtRole(s, root, vpn, level + 1);
    }
  }

  /** Writing slot i of a level-0 table changes the translation of one page number of one tree. */
  lemma SetLeafLookup(s: View, t: nat, i: nat, w: Word, root: nat, vpn: nat)
    requires Inv(s) && IsTable(s, t) && s.role[t].level == 0 && i < SLOTS
    requires IsRoot(s, root) && vpn < NVPN
    ensures Lookup(SetWord(s, t, i, w).mem, root, vpn) ==
            if s.role[t].root == root && s.role[t].prefix * 512 + i == vpn then (if IsValid(w) then Some(w) else None)
            else Lookup(s.mem, root, vpn)
  {
    LeafSplit(vpn);
    hide IsValid, Ppn, MakePte, Px, TableAt, Prefix;
    SetLeafTableAt(s, t, i, w, root, vpn, 0);
    TableAtRole(s, root, vpn, 0);
    if s.role[t].root == root && s.role[t].prefix * 512 + i == vpn {
      SplitUnique(s.role[t].prefix, i, Prefix(0, vpn), Px(0, vpn));
      RoleTableAt(s, t, vpn);
    }
  }

  lemma LeafSplit(vpn: nat)
    ensures vpn == Prefix(0, vpn) * 512 + Px(0, vpn) && Px(0, vpn) < 512
  {
  }

  lemma SameMap(mem: Memory, mem': Memory, root: nat)
    requires forall v :: 0 <= v < NVPN ==> Lookup(mem', root, v) == Lookup(mem, root, v)
    ensures AbsMap(mem', root) == AbsMap(mem, root)
  {
    hide Lookup;
  }

  lemma MapUpdate(mem: Memory, mem': Memory, root: nat, vpn: nat, e: Option<Word>)
    requires vpn < NVPN
    requires forall v :: 0 <= v < NVPN ==> Lookup(mem', root, v) == if v == vpn then e else Lookup(mem, root, v)
    ensures AbsMap(mem', root) == if e.Some? then AbsMap(mem, root)[vpn := e.value] else AbsMap(mem, root) - {vpn}
  {
    hide Lookup;
  }

  /** The same on the abstract map. */
  lemma SetLeafMap(s: View, t: nat, i: nat, w: Word, root: nat)
    requires Inv(s) && IsTable(s, t) && s.role[t].level == 0 && i < SLOTS && IsRoot(s, root)
    ensures s.role[t].prefix * 512 + i < NVPN
    ensures var vpn, m := s.role[t].prefix * 512 + i, AbsMap(s.mem, root);
            AbsMap(SetWord(s, t, i, w).mem, root) ==
            if s.role[t].root != root then m else if IsValid(w) then m[vpn := w] else m - {vpn}
  {
    PlaceRange(s, t);
    hide Lookup, IsValid, AbsMap, FreeListOk, NodesOk, EdgesOk, LeavesOk, FramesOk;
    var mem' := SetWord(s, t, i, w).mem;
    forall vpn | 0 <= vpn < NVPN
      ensures Lookup(mem', root, vpn) ==
              if s.role[t].root == root && s.role[t].prefix * 512 + i == vpn then (if IsValid(w) then Some(w) else None)
              else Lookup(s.mem, root, vpn)
    {
      SetLeafLookup(s, t, i, w, root, vpn);
    }
    if s.role[t].root == root {
      MapUpdate(s.mem, mem', root, s.role[t].prefix * 512 + i, if IsValid(w) then Some(w) else None);
    } else {
      SameMap(s.mem, mem', root);
    }
  }

  /** The slot of a mapped page is in the level-0 table at its place. */
  lemma LookupIsSlot(s: View, root: nat, vpn: nat) returns (t: nat, i: nat)
    requires Inv(s) && IsRoot(s, root) && vpn < NVPN && TableAt(s.mem, root, vpn, 0).Some?
    ensures i < SLOTS && TableAt(s.mem, root, vpn, 0) == Some(t) && i == Px(0, vpn)
    ensures TableOf(s, t, root) && s.role[t].level == 0 && s.role[t].prefix * 512 + i == vpn
    ensures Lookup(s.mem, root, vpn) == if IsValid(s.mem[t][i]) then Some(s.mem[t][i]) else None
  {
    hide TableAt, IsValid, Ppn, MakePte;
    t, i := TableAt(s.mem, root, vpn, 0).value, Px(0, vpn);
    TableAtRole(s, root, vpn, 0);
    LeafSplit(vpn);
  }

  /** Two page numbers, of the same or of different trees, have the same leaf slot exactly if they are the same. */
  lemma SlotInjective(s: View, r1: nat, v1: nat, t1: nat, r2: nat, v2: nat, t2: nat)
    requires Inv(s) && IsRoot(s, r1) && IsRoot(s, r2) && v1 < NVPN && v2 < NVPN
    requires TableAt(s.mem, r1, v1, 0) == Some(t1) && TableAt(s.mem, r2, v2, 0) == Some(t2)
    ensures t1 * 4096 + Px(0, v1) * 8 == t2 * 4096 + Px(0, v2) * 8 <==> r1 == r2 && v1 == v2
  {
    hide TableAt, Prefix, Inv, Px;
    TableAtRole(s, r1, v1, 0);
    TableAtRole(s, r2, v2, 0);
    LeafSplit(v1);
    LeafSplit(v2);
    PxRange(0, v1);
    PxRange(0, v2);
    SlotAddress(t1, Px(0, v1), t2, Px(0, v2));
  }

  lemma SlotAddress(t: nat, i: nat, u: nat, j: nat)
    requires i < 512 && j < 512
    ensures t * 4096 + i * 8 == u * 4096 + j * 8 <==> t == u && i == j
  {
  }

  // ---------------------------------------------------------------- which tables a tree has

  lemma PositionsKept(s: View, s': View, root: nat)
    requires forall p: nat :: TableOf(s, p, root) <==> TableOf(s', p, root)
    requires forall p: nat :: TableOf(s, p, root) ==> p in s'.role && s'.role[p] == s.role[p]
    ensures Positions(s', root) == Positions(s, root)
  {
    forall x | x in Positions(s, root) ensures x in Positions(s', root) {
      var p :| p in s.role && TableOf(s, p, root) && x == (s.role[p].level, s.role[p].prefix);
      assert TableOf(s', p, root);
    }
    forall x | x in Positions(s', root) ensures x in Positions(s, root) {
      var p :| p in s'.role && TableOf(s', p, root) && x == (s'.role[p].level, s'.role[p].prefix);
      assert TableOf(s, p, root);
    }
  }

  /** A new table adds its place. */
  lemma PositionsAdd(s: View, s': View, root: nat, c: nat)
    requires TableOf(s', c, root) && !TableOf(s, c, root)
    requires forall p: nat :: p != c ==> (TableOf(s, p, root) <==> TableOf(s', p, root))
    requires forall p: nat :: TableOf(s, p, root) ==> p in s'.role && s'.role[p] == s.role[p]
    ensures Positions(s', root) == Positions(s, root) + {(s'.role[c].level, s'.role[c].prefix)}
  {
    forall x | x in Positions(s, root) ensures x in Positions(s', root) {
      var p :| p in s.role && TableOf(s, p, root) && x == (s.role[p].level, s.role[p].prefix);
      assert TableOf(s', p, root);
    }
    assert TableOf(s', c, root);
    forall x | x in Positions(s', root) && x != (s'.role[c].level, s'.role[c].prefix) ensures x in Positions(s, root) {
      var p :| p in s'.role && TableOf(s', p, root) && x == (s'.role[p].level, s'.role[p].prefix);
      assert TableOf(s, p, root);
    }
  }

  /** A tree has a table at a place exactly if the place's page numbers reach one there. */
  lemma PositionReached(s: View, root: nat, vpn: nat, level: nat)
    requires Inv(s) && IsRoot(s, root) && vpn < NVPN && level <= 2
    ensures (level, Prefix(level, vpn)) in Positions(s, root) <==> TableAt(s.mem, root, vpn, level).Some?
  {
    hide Prefix, IsValid, Ppn, MakePte, Px, TableAt;
    TableAtRole(s, root, vpn, level);
    if (level, Prefix(level, vpn)) in Positions(s, root) {
      var p :| p in s.role && TableOf(s, p, root) && (level, Prefix(level, vpn)) == (s.role[p].level, s.role[p].prefix);
      RoleTableAt(s, p, vpn);
    }
  }

  // ---------------------------------------------------------------- growing a tree

  /** A tree may have taken free pages as tables; nothing else changed but its own table pages, and the free
      list is shorter by exactly as many pages as the tree has new places. */
  ghost predicate Grown(s: View, s': View, root: nat) {
    && |s'.mem| == |s.mem| && s'.role.Keys == s.role.Keys
    && (forall p: nat :: p in s.role ==> s'.role[p] == s.role[p] || (s.role[p] == Free && TableOf(s', p, root)))
    && (forall p: nat :: p < |s.mem| && !TableOf(s, p, root) && !(p in s.role && s.role[p] == Free) ==>
         s'.mem[p] == s.mem[p])
    && |s.free| + |Positions(s, root)| == |s'.free| + |Positions(s', root)|
    && |s'.free| <= |s.free|
  }

  lemma GrownTransitive(s0: View, s1: View, s2: View, root: nat)
    requires Grown(s0, s1, root) && Grown(s1, s2, root)
    ensures Grown(s0, s2, root)
  {
    hide Positions;
  }

  lemma GrownRoot(s: View, s': View, root: nat, r: nat)
    requires Grown(s, s', root) && IsRoot(s, r)
    ensures IsRoot(s', r)
  {
    hide Positions;
  }

  /** Growing one tree leaves the others alone. */
  lemma GrownOthers(s: View, s': View, root: nat, other: nat)
    requires Inv(s) && Grown(s, s', root) && IsRoot(s, other) && other != root
    ensures IsRoot(s', other) && AbsMap(s'.mem, other) == AbsMap(s.mem, other)
  {
    hide Positions, FreeListOk, NodesOk, EdgesOk, LeavesOk, FramesOk;
    SameLookup(s, s'.mem, other);
  }

  /** kalloc, memset and the store that links the page below slot i of table p, as walk does them. */
  function AllocTable(s: View, p: nat, i: nat): View
    requires |s.free| > 0 && s.free[0] < |s.mem| && ListAddr(s.free, 1) < WORD_MODULUS && s.free[0] < MAXPAGES
    requires p < |s.mem| && p != s.free[0] && i < |s.mem[p]| && IsTable(s, p) && s.role[p].level > 0
  {
    LinkTable(SetPage(Pop(s), s.free[0], Filled(0)), p, i, s.free[0])
  }

  /** The two tables that the translation of a page number needs below the root. */
  function Needed(vpn: nat): set<(nat, nat)> {
    {(1, Prefix(1, vpn)), (0, Prefix(0, vpn))}
  }

  /** No table hangs at the place below an invalid slot. */
  lemma FreshPlace(s: View, p: nat, i: nat)
    requires Inv(s) && IsTable(s, p) && 0 < s.role[p].level && i < SLOTS && !IsValid(s.mem[p][i])
    ensures (s.role[p].level - 1, s.role[p].prefix * 512 + i) !in Positions(s, s.role[p].root)
  {
    hide IsValid, Ppn, MakePte, IsLeaf;
    var t := s.role[p];
    if (t.level - 1, t.prefix * 512 + i) in Positions(s, t.root) {
      var q :| q in s.role && TableOf(s, q, t.root)
          && (s.role[q].level, s.role[q].prefix) == (t.level - 1, t.prefix * 512 + i);
      assert NodeOk(s, q) && NodeOk(s, p);
      SplitUnique(s.role[s.role[q].parent].prefix, s.role[q].slot, t.prefix, i);
      PlaceIsUnique(s, s.role[q].parent, p);
      MakePteFields(q, 0);
    }
  }

  /** kalloc, then a whole page written. */
  function AllocFill(s: View, page: seq<Word>): View
    requires |s.free| > 0 && ListAddr(s.free, 1) < WORD_MODULUS && s.free[0] < |s.mem|
  {
    View(s.mem[s.free[0] := page], ListAddr(s.free, 1), s.free[1..], s.role[s.free[0] := Held(0)])
  }

  lemma AllocPageInv(s: View, page: seq<Word>)
    requires Inv(s) && |s.free| > 0 && |page| == SLOTS
    ensures s.free[0] in s.role && s.role[s.free[0]] == Free && 0 < s.free[0] < |s.mem| <= MAXPAGES
            && ListAddr(s.free, 1) < WORD_MODULUS
    ensures |Pop(s).mem| == |s.mem| && SetPage(Pop(s), s.free[0], page) == AllocFill(s, page)
    ensures Inv(AllocFill(s, page))
  {
    hide IsValid, Ppn, MakePte, IsLeaf, NodesOk, EdgesOk, LeavesOk, FramesOk;
    PopInv(s);
    ListedIsFree(s, s.free[0]);
    HeldInv(Pop(s), s.free[0], page, 0);
  }

  /** A page taken from the free list touches no tree. */
  lemma AllocPageMap(s: View, page: seq<Word>, root: nat)
    requires Inv(s) && |s.free| > 0 && |page| == SLOTS && IsRoot(s, root) && s.free[0] < |s.mem|
             && ListAddr(s.free, 1) < WORD_MODULUS
    ensures var s1 := AllocFill(s, page);
            IsRoot(s1, root) && AbsMap(s1.mem, root) == AbsMap(s.mem, root) && Positions(s1, root) == Positions(s, root)
  {
    hide AbsMap, Positions, NodesOk, EdgesOk, LeavesOk, FramesOk;
    ListedIsFree(s, s.free[0]);
    SameLookup(s, AllocFill(s, page).mem, root);
    PositionsKept(s, AllocFill(s, page), root);
  }

  lemma AllocTableInv(s: View, p: nat, i: nat)
    requires Inv(s) && |s.free| > 0 && IsTable(s, p) && 0 < s.role[p].level && i < SLOTS && !IsValid(s.mem[p][i])
    ensures p != s.free[0] && s.free[0] < |s.mem| && ListAddr(s.free, 1) < WORD_MODULUS
    ensures var s', c, t := AllocTable(s, p, i), s.free[0], s.role[p];
            && Inv(s') && c in s.role && s.role[c] == Free && IsRoot(s, t.root)
            && s' == View(s'.mem, ListAddr(s.free, 1), s.free[1..], s.role[c := Table(t.root, t.level - 1,
               t.prefix * 512 + i, p, i)])
            && s'.mem == s.mem[c := Filled(0)][p := s'.mem[p]]
            && AbsMap(s'.mem, t.root) == AbsMap(s.mem, t.root)
  {
    hide IsValid, Ppn, MakePte, IsLeaf, FreeListOk, EdgesOk, LeavesOk, FramesOk, AbsMap;
    var c := s.free[0];
    assert NodeOk(s, p);
    hide NodesOk;
    AllocPageInv(s, Filled(0));
    var s2 := SetPage(Pop(s), c, Filled(0));
    LinkTableInv(s2, p, i, c);
    LinkTableLookup(s2, p, i, c, s.role[p].root);
    SameLookup(s, s2.mem, s.role[p].root);
  }

  lemma AllocTableGrown(s: View, p: nat, i: nat)
    requires Inv(s) && |s.free| > 0 && IsTable(s, p) && 0 < s.role[p].level && i < SLOTS && !IsValid(s.mem[p][i])
    ensures p != s.free[0] && s.free[0] < |s.mem| && ListAddr(s.free, 1) < WORD_MODULUS
    ensures var s', t := AllocTable(s, p, i), s.role[p];
            && Grown(s, s', t.root)
            && (t.level - 1, t.prefix * 512 + i) !in Positions(s, t.root)
            && Positions(s', t.root) == Positions(s, t.root) + {(t.level - 1, t.prefix * 512 + i)}
  {
    hide AllocTable, FreeListOk, NodesOk, EdgesOk, LeavesOk, FramesOk, AbsMap, MakePte, IsValid, Ppn, Positions, Grown;
    AllocTableInv(s, p, i);
    FreshPlace(s, p, i);
    PositionsAdd(s, AllocTable(s, p, i), s.role[p].root, s.free[0]);
    var t := s.role[p];
    GrownByOne(s, AllocTable(s, p, i), t.root, s.free[0], p, (t.level - 1, t.prefix * 512 + i));
  }

  lemma GrownByOne(s: View, s': View, root: nat, c: nat, p: nat, place: (nat, nat))
    requires |s.free| > 0 && c == s.free[0] && c in s.role && s.role[c] == Free && TableOf(s, p, root)
    requires |s'.mem| == |s.mem| && s'.free == s.free[1..]
    requires TableOf(s', c, root) && s'.role == s.role[c := s'.role[c]]
    requires forall x: nat :: x < |s.mem| && x != c && x != p ==> s'.mem[x] == s.mem[x]
    requires place !in Positions(s, root) && Positions(s', root) == Positions(s, root) + {place}
    ensures Grown(s, s', root)
  {
    hide Positions;
  }

  lemma AllocTableEffect(s: View, p: nat, vpn: nat)
    requires Inv(s) && |s.free| > 0 && vpn < NVPN
    requires IsTable(s, p) && 0 < s.role[p].level <= 2 && s.role[p].prefix == Prefix(s.role[p].level, vpn)
    requires !IsValid(s.mem[p][Px(s.role[p].level, vpn)])
    ensures p != s.free[0] && s.free[0] < |s.mem| && ListAddr(s.free, 1) < WORD_MODULUS
    ensures var s', root, level := AllocTable(s, p, Px(s.role[p].level, vpn)), s.role[p].root, s.role[p].level - 1;
            && Inv(s') && Grown(s, s', root)
            && AbsMap(s'.mem, root) == AbsMap(s.mem, root)
            && TableAt(s'.mem, root, vpn, level) == Some(s.free[0])
            && (level, Prefix(level, vpn)) !in Positions(s, root)
            && Positions(s', root) == Positions(s, root) + {(level, Prefix(level, vpn))}
  {
    hide AllocTable, AbsMap, IsValid, Ppn, MakePte, Px, Prefix, TableAt, Grown, Positions, FreeListOk, NodesOk,
        EdgesOk, LeavesOk, FramesOk;
    var level := s.role[p].level;
    var i := Px(level, vpn);
    PrefixStep(level, vpn);
    AllocTableInv(s, p, i);
    AllocTableGrown(s, p, i);
    RoleTableAt(AllocTable(s, p, i), s.free[0], vpn);
  }

  /** One level of the walk: where it stands, what the entry says, where it goes. */
  lemma WalkStep(s: View, root: nat, vpn: nat, level: nat, t: nat)
    requires Inv(s) && IsRoot(s, root) && vpn < NVPN && 0 < level <= 2 && TableAt(s.mem, root, vpn, level) == Some(t)
    ensures TableOf(s, t, root) && s.role[t].level == level && s.role[t].prefix == Prefix(level, vpn)
    ensures 0 < t < |s.mem| <= MAXPAGES && |s.mem[t]| == SLOTS && Px(level, vpn) < SLOTS
    ensures var w := s.mem[t][Px(level, vpn)];
            if IsValid(w) then
              && TableAt(s.mem, root, vpn, level - 1) == Some(Ppn(w)) && Pte2Pa(w) == Ppn(w) * 4096
              && (level - 1, Prefix(level - 1, vpn)) in Positions(s, root)
            else
              TableAt(s.mem, root, vpn, level - 1) == None && (level - 1, Prefix(level - 1, vpn)) !in Positions(s, root)
  {
    TableAtRole(s, root, vpn, level);
    PxRange(level, vpn);
    PositionReached(s, root, vpn, level - 1);
    hide IsValid, Ppn, MakePte, Px, Prefix, Positions, Pte2Pa;
    var w := s.mem[t][Px(level, vpn)];
    if IsValid(w) {
      assert EdgeOk(s, t, Px(level, vpn));
      MakePteFields(Ppn(w), 0);
    }
  }

  /** The places on the way to vpn that a walk has passed when it stands at `level`. */
  function PathPlaces(vpn: nat, level: nat): set<(nat, nat)> {
    if level == 0 then Needed(vpn) else if level == 1 then {(1, Prefix(1, vpn))} else {}
  }

  lemma PathPlacesStep(s0: View, s: View, root: nat, vpn: nat, level: nat)
    requires 0 < level <= 2 && Positions(s, root) == Positions(s0, root) + PathPlaces(vpn, level)
    ensures PathPlaces(vpn, level - 1) == PathPlaces(vpn, level) + {(level - 1, Prefix(level - 1, vpn))}
    ensures (level - 1, Prefix(level - 1, vpn)) !in Positions(s, root) ==>
              Positions(s0, root) <= Positions(s, root) < Positions(s0, root) + Needed(vpn)
  {
    hide Positions, Prefix;
    assert (level - 1, Prefix(level - 1, vpn)) in Needed(vpn);
  }

  lemma WalkStart(s: View, root: nat, vpn: nat)
    ensures TableAt(s.mem, root, vpn, 2) == Some(root) && PathPlaces(vpn, 2) == {} && PathPlaces(vpn, 0) == Needed(vpn)
    ensures Grown(s, s, root)
  {
    hide Positions;
  }

  lemma WalkEnd(s: View, root: nat, vpn: nat, t: nat)
    requires Inv(s) && IsRoot(s, root) && vpn < NVPN && TableAt(s.mem, root, vpn, 0) == Some(t)
    ensures 0 < t < |s.mem| <= MAXPAGES && Px(0, vpn) < SLOTS
  {
    TableAtRole(s, root, vpn, 0);
    PxRange(0, vpn);
  }

  lemma PathEnds(s: View, root: nat, vpn: nat, level: nat)
    requires 0 < level <= 2 && TableAt(s.mem, root, vpn, level - 1) == None
    ensures TableAt(s.mem, root, vpn, 0) == None
  {
  }

  // ---------------------------------------------------------------- mapping a range

  predicate InRange(lo: nat, n: nat, v: nat) {
    lo <= v < lo + n
  }

  /** The n page numbers from lo on. */
  ghost function Pages(lo: nat, n: nat): set<nat> {
    set v: nat | lo <= v < lo + n && InRange(lo, n, v)
  }

  /** n pages from page number lo on, mapped to consecutive frames from ppn on. */
  ghost function RangeMap(lo: nat, n: nat, ppn: nat, perm: Word): map<nat, Word>
    requires ppn + n <= MAXPAGES && perm < 1024
  {
    map v | v in Pages(lo, n) :: MakePte(ppn + (v - lo), perm)
  }

  /** The tables that a set of page numbers needs below the root. */
  function NeededOf(d: set<nat>): set<(nat, nat)> {
    set v, x | v in d && x in Needed(v) :: x
  }

  /** How many tables a tree still lacks to map a set of page numbers. */
  ghost function TableCost(s: View, root: nat, d: set<nat>): nat {
    |NeededOf(d) - Positions(s, root)|
  }

  lemma NeededOfAdd(d: set<nat>, v: nat)
    ensures NeededOf(d + {v}) == NeededOf(d) + Needed(v)
  {
    hide Needed;
  }

  lemma NeededOfMono(d: set<nat>, e: set<nat>)
    requires d <= e
    ensures NeededOf(d) <= NeededOf(e)
  {
    hide Needed;
  }

  lemma PagesStep(lo: nat, j: nat)
    ensures Pages(lo, j + 1) == Pages(lo, j) + {lo + j} && lo + j !in Pages(lo, j)
  {
  }

  lemma PagesWithin(lo: nat, j: nat, n: nat)
    requires j < n
    ensures Pages(lo, j) + {lo + j} <= Pages(lo, n)
  {
  }

  lemma PagesSize(lo: nat, n: nat)
    ensures |Pages(lo, n)| == n
  {
    if n > 0 {
      PagesSize(lo, n - 1);
      PagesStep(lo, n - 1);
    } else {
      assert Pages(lo, n) == {};
    }
  }

  lemma RangeMapStep(m: map<nat, Word>, lo: nat, j: nat, ppn: nat, perm: Word)
    requires ppn + j + 1 <= MAXPAGES && perm < 1024
    ensures (m + RangeMap(lo, j, ppn, perm))[lo + j := MakePte(ppn + j, perm)] == m + RangeMap(lo, j + 1, ppn, perm)
  {
    hide MakePte;
  }

  /** Filling an empty leaf slot. */
  lemma MapSlotEffect(s: View, root: nat, vpn: nat, t: nat, w: Word)
    requires Inv(s) && IsRoot(s, root) && vpn < NVPN && TableAt(s.mem, root, vpn, 0) == Some(t)
    requires vpn !in AbsMap(s.mem, root) && IsValid(w) && IsLeaf(w)
    ensures 0 < t < |s.mem| <= MAXPAGES && |s.mem[t]| == SLOTS && Px(0, vpn) < SLOTS
    ensures !IsValid(s.mem[t][Px(0, vpn)])
    ensures var s' := SetWord(s, t, Px(0, vpn), w);
            && Inv(s') && Grown(s, s', root) && IsRoot(s', root) && Positions(s', root) == Positions(s, root)
            && AbsMap(s'.mem, root) == AbsMap(s.mem, root)[vpn := w]
            && TableAt(s'.mem, root, vpn, 0) == Some(t)
  {
    hide TableAt, IsValid, Ppn, MakePte, IsLeaf, Px, AbsMap, Positions, EdgesOk, NodesOk, LeavesOk, FreeListOk;
    var t', i := LookupIsSlot(s, root, vpn);
    assert !IsValid(s.mem[t][i]) by {
      if IsValid(s.mem[t][i]) { NotMapped(s, root, vpn); }
    }
    var s' := SetWord(s, t, i, w);
    forall q: nat | q in s.role && s.role[q].Frame? ensures s.role[q].table != t || s.role[q].slot != i {
      assert FrameOk(s, q);
    }
    hide FramesOk;
    SetLeafInv(s, t, i, w);
    SetLeafMap(s, t, i, w, root);
    SetLeafTableAt(s, t, i, w, root, vpn, 0);
    PositionsKept(s, s', root);
  }

  lemma NotMapped(s: View, root: nat, vpn: nat)
    requires vpn < NVPN
    ensures vpn in AbsMap(s.mem, root) <==> Lookup(s.mem, root, vpn).Some?
    ensures vpn in AbsMap(s.mem, root) ==> AbsMap(s.mem, root)[vpn] == Lookup(s.mem, root, vpn).value
  {
    hide Lookup;
  }

  lemma NotInRange(m: map<nat, Word>, lo: nat, j: nat, ppn: nat, perm: Word, v: nat)
    requires ppn + j <= MAXPAGES && perm < 1024 && v !in m && lo + j <= v
    ensures v !in m + RangeMap(lo, j, ppn, perm)
  {
    hide MakePte;
  }

  lemma MapStart(s: View, root: nat, lo: nat, ppn: nat, perm: Word)
    requires ppn <= MAXPAGES && perm < 1024
    ensures Grown(s, s, root)
    ensures AbsMap(s.mem, root) + RangeMap(lo, 0, ppn, perm) == AbsMap(s.mem, root)
    ensures Positions(s, root) + NeededOf(Pages(lo, 0)) == Positions(s, root)
  {
    hide AbsMap, Positions, MakePte;
    assert Pages(lo, 0) == {};
    assert RangeMap(lo, 0, ppn, perm) == map[];
  }

  /** A completed growth has cost exactly the tables that were missing. */
  lemma GrowthCost(s: View, s': View, root: nat, d: set<nat>)
    requires Grown(s, s', root) && Positions(s', root) == Positions(s, root) + NeededOf(d)
    ensures |s.free| == |s'.free| + TableCost(s, root, d)
  {
    hide Positions, NeededOf;
    var p, need := Positions(s, root), NeededOf(d);
    assert p + need == p + (need - p) && p !! (need - p);
  }

  /** A growth that ran out of pages had fewer than the tables that were missing. */
  lemma GrowthShort(s0: View, s: View, s1: View, root: nat, d: set<nat>, v: nat, e: set<nat>)
    requires Grown(s0, s, root) && Grown(s, s1, root) && d + {v} <= e
    requires Positions(s, root) == Positions(s0, root) + NeededOf(d)
    requires s1.free == [] && Positions(s1, root) < Positions(s, root) + Needed(v)
    ensures Grown(s0, s1, root) && Positions(s1, root) < Positions(s0, root) + NeededOf(e)
    ensures |s0.free| < TableCost(s0, root, e)
  {
    hide Positions, NeededOf, Needed, Grown;
    GrownTransitive(s0, s, s1, root);
    NeededOfAdd(d, v);
    NeededOfMono(d + {v}, e);
    ShortSize(Positions(s0, root), Positions(s1, root), NeededOf(e));
    assert |s0.free| + |Positions(s0, root)| == |s1.free| + |Positions(s1, root)| by { GrownSize(s0, s1, root); }
  }

  lemma GrownSize(s: View, s': View, root: nat)
    requires Grown(s, s', root)
    ensures |s.free| + |Positions(s, root)| == |s'.free| + |Positions(s', root)| && |s'.free| <= |s.free|
  {
    hide Positions;
  }

  lemma ShortSize(p0: set<(nat, nat)>, p1: set<(nat, nat)>, need: set<(nat, nat)>)
    requires p1 < p0 + need
    ensures |p1| < |p0| + |need - p0|
  {
    ProperSubsetSize(p1, p0 + need);
    assert p0 + need == p0 + (need - p0) && p0 !! (need - p0);
  }

  lemma PopMem(s: View)
    requires |s.free| > 0 && s.free[0] < |s.mem| && ListAddr(s.free, 1) < WORD_MODULUS
    ensures |Pop(s).mem| == |s.mem|
  {
  }

  lemma PagesEmpty(lo: nat)
    ensures Pages(lo, 0) == {}
  {
  }

  /** A zeroed root translates nothing and is the only table of its tree. */
  lemma NewRootMap(s: View, root: nat)
    requires Inv(s) && root in s.role && s.role[root].Held? && s.mem[root] == Filled(0)
    ensures AbsMap(s.mem, root) == map[]
    ensures Positions(SetRole(s, root, Table(root, 2, 0, root, 0)), root) == {(2, 0)}
  {
    assert !IsValid(0);
    hide IsValid, Ppn, MakePte, Px, EdgesOk, LeavesOk, FramesOk, FreeListOk;
    forall vpn | 0 <= vpn < NVPN ensures Lookup(s.mem, root, vpn).None? {
      PxRange(2, vpn);
      assert TableAt(s.mem, root, vpn, 1).None?;
      assert TableAt(s.mem, root, vpn, 0).None?;
    }
    var s' := SetRole(s, root, Table(root, 2, 0, root, 0));
    forall p: nat | TableOf(s', p, root) ensures p == root {
      if IsTable(s, p) { assert NodeOk(s, p); }
    }
    assert TableOf(s', root, root);
  }

  /** A leaf slot holds the mapping of its page number. */
  lemma LeafEntry(s: View, root: nat, v: nat, t: nat)
    requires Inv(s) && IsRoot(s, root) && v < NVPN && TableAt(s.mem, root, v, 0) == Some(t)
    ensures 0 < t < |s.mem| && |s.mem[t]| == SLOTS && Px(0, v) < SLOTS
    ensures v in AbsMap(s.mem, root) <==> IsValid(s.mem[t][Px(0, v)])
    ensures v in AbsMap(s.mem, root) ==> AbsMap(s.mem, root)[v] == s.mem[t][Px(0, v)]
  {
    hide AbsMap, TableAt, IsValid, Ppn, MakePte, Px;
    var t', i := LookupIsSlot(s, root, v);
    NotMapped(s, root, v);
  }

  lemma NoLeafEntry(s: View, root: nat, v: nat)
    requires Inv(s) && IsRoot(s, root) && v < NVPN
    ensures TableAt(s.mem, root, v, 0).None? ==> v !in AbsMap(s.mem, root)
  {
    hide TableAt;
  }

  lemma PteOfPage(w: Word, q: nat)
    requires q == Ppn(w) && q < MAXPAGES
    ensures Pte2Pa(w) == q * 4096
  {
  }

  /** The user-accessible frame that a virtual address falls on, or 0. */
  ghost function UserFrame(mem: Memory, root: nat, va: Word): Word {
    if va < MAXVA && va / 4096 in AbsMap(mem, root)
        && IsUser(AbsMap(mem, root)[va / 4096]) then Pte2Pa(AbsMap(mem, root)[va / 4096])
    else 0
  }
}
