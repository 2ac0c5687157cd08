/** Whole lives of an address space: what growth means page by page, and that freeing gives everything back. */
module Lifecycle {
  import opened Riscv
  import opened PageTable
  import opened Translation
  import opened Ownership
  import opened Teardown
  import opened Kalloc
  import opened Vm

  // ---------------------------------------------------------------- the free list as a set

  ghost function FreeSet(role: map<nat, Role>): set<nat> {
    set p | p in role && role[p] == Free
  }

  /** The list holds every free page once, and no other page. */
  lemma ListIsFreeSet(s: View)
    requires Inv(s)
    ensures forall p: nat :: p in s.free <==> p in FreeSet(s.role)
    ensures |s.free| == |FreeSet(s.role)|
  {
    hide NodesOk, EdgesOk, LeavesOk, FramesOk;
    forall p: nat | p in s.free ensures p in FreeSet(s.role) {
      ListedIsFree(s, p);
    }
    DistinctSize(s.free, FreeSet(s.role));
  }

  lemma {:induction false} DistinctSize(free: seq<nat>, d: set<nat>)
    requires forall j, k :: 0 <= j < k < |free| ==> free[j] != free[k]
    requires forall p: nat :: p in free <==> p in d
    ensures |free| == |d|
  {
    if free != [] {
      var p, rest := free[0], free[1..];
      forall x: nat | x in d - {p} ensures x in rest {
        assert x in free;
      }
      forall x: nat | x in rest ensures x in d - {p} {
        assert x in free;
      }
      DistinctSize(rest, d - {p});
      assert p in free;
    } else {
      assert d == {};
    }
  }

  // ---------------------------------------------------------------- growth

  /** Entry w maps a page of zeros that was free before, for user code to read and as xperm says. */
  ghost predicate FreshZeros(s: View, s': View, w: Word, xperm: Perm) {
    && Ppn(w) in s.role && s.role[Ppn(w)] == Free && Ppn(w) < |s'.mem| && s'.mem[Ppn(w)] == Filled(0)
    && IsReadable(w) && IsUser(w) && IsWritable(w) == IsWritable(xperm) && IsExecutable(w) == IsExecutable(xperm)
  }

  /** What growth from oldsz to newsz does to page v. */
  lemma GrowthMeaning(s: View, s': View, root: nat, oldsz: Word, newsz: Word, xperm: Perm, v: nat)
    requires oldsz <= newsz <= MAXVA && Expanded(s, s', root, ZeroPages(GrowPages(oldsz, newsz), xperm))
    ensures v in AbsMap(s'.mem, root) <==> v in AbsMap(s.mem, root) || StartsIn(oldsz, v, newsz)
    ensures v in AbsMap(s.mem, root) ==>
              !StartsIn(oldsz, v, newsz) && AbsMap(s'.mem, root)[v] == AbsMap(s.mem, root)[v]
    ensures StartsIn(oldsz, v, newsz) ==> FreshZeros(s, s', AbsMap(s'.mem, root)[v], xperm)
  {
    hide AbsMap, ExpandedCount, ExpandedRoles, Ppn, MakePte, WithReadUser, IsReadable, IsWritable, IsExecutable,
        IsUser, IsLeaf, GrowPages, StartsIn;
    GrownPages(oldsz, newsz, v);
    var want := ZeroPages(GrowPages(oldsz, newsz), xperm);
    assert want.Keys == GrowPages(oldsz, newsz);
    if v in want {
      assert NewPage(s, s', root, v, want[v]);
      ReadUserBits(xperm);
      MakePteBits(Ppn(AbsMap(s'.mem, root)[v]), WithReadUser(xperm));
    }
  }

  /** What shrinking from oldsz to newsz does to page v: it goes, and its frame becomes free, exactly if it starts in
      the part given up. */
  lemma ShrinkMeaning(s: View, s': View, root: nat, oldsz: Word, newsz: Word, v: nat)
    requires Inv(s) && oldsz <= MAXVA
    requires Released(s, s', root, Pages(ShrinkLo(newsz), ShrinkCount(oldsz, newsz)), Free)
    ensures v in AbsMap(s'.mem, root) <==> v in AbsMap(s.mem, root) && !StartsIn(newsz, v, oldsz)
    ensures v in AbsMap(s'.mem, root) ==> AbsMap(s'.mem, root)[v] == AbsMap(s.mem, root)[v]
    ensures v in AbsMap(s'.mem, root) && OwnsFrame(s, root, v) ==>
              var q := Ppn(AbsMap(s.mem, root)[v]);
              q < |s'.mem| == |s.mem| && s'.mem[q] == s.mem[q]
    ensures v in AbsMap(s.mem, root) && OwnsFrame(s, root, v) && StartsIn(newsz, v, oldsz) ==>
              var q := Ppn(AbsMap(s.mem, root)[v]);
              q in s'.role && s'.role[q] == Free
  {
    hide AbsMap, Ppn, Pages, StartsIn, ShrinkLo, ShrinkCount, NodesOk, EdgesOk, LeavesOk, FramesOk, FreeListOk;
    ShrinkPages(oldsz, newsz, v);
  }

  /** New pages have frames of their own. */
  lemma NewFramesDiffer(s: View, s': View, root: nat, want: map<nat, Want>, v: nat, u: nat)
    requires Expanded(s, s', root, want) && v in want && u in want && v != u
    ensures v in AbsMap(s'.mem, root) && u in AbsMap(s'.mem, root)
    ensures Ppn(AbsMap(s'.mem, root)[v]) != Ppn(AbsMap(s'.mem, root)[u])
  {
    hide AbsMap, ExpandedCount, ExpandedRoles, Ppn, MakePte;
    assert NewPage(s, s', root, v, want[v]);
    assert NewPage(s, s', root, u, want[u]);
  }

  // ---------------------------------------------------------------- teardown

  /** The tables and the frames of a tree. */
  ghost function TreePages(role: map<nat, Role>, root: nat): set<nat> {
    set p | p in role && (role[p].Table? || role[p].Frame?) && role[p].root == root
  }

  /** Freeing a tree puts exactly its tables and its frames on the list, each once. */
  lemma FreedCount(s: View, s': View, root: nat)
    requires Inv(s) && Inv(s') && s'.role == FreeTree(s.role, root)
    ensures FreeSet(s'.role) == FreeSet(s.role) + TreePages(s.role, root) && FreeSet(s.role) !! TreePages(s.role, root)
    ensures |s'.free| == |s.free| + |TreePages(s.role, root)|
  {
    hide Inv;
    ListIsFreeSet(s);
    ListIsFreeSet(s');
  }

  /** Freeing one tree leaves the others alone. */
  lemma FreedOthers(s: View, s': View, root: nat, other: nat)
    requires Inv(s) && s'.role == FreeTree(s.role, root) && KeepsLive(s, s', {}) && IsRoot(s, other) && other != root
    ensures IsRoot(s', other) && AbsMap(s'.mem, other) == AbsMap(s.mem, other)
  {
    hide AbsMap, FreeListOk, EdgesOk, LeavesOk, NodesOk, FramesOk;
    SameLookup(s, s'.mem, other);
  }

  /** Freeing a tree undoes its creation and all its growth: every page has the role it had before. */
  lemma FreeUndoes(s: View, s1: View, s2: View, root: nat, d: set<nat>)
    requires Inv(s) && root in s.role && s.role[root] == Free
    requires s1.role == s.role[root := Table(root, 2, 0, root, 0)] && ExpandedRoles(s1, s2, root, d)
    ensures FreeTree(s2.role, root) == s.role
  {
    hide FreeListOk, EdgesOk, LeavesOk;
    forall p: nat | p in s.role && (s.role[p].Table? || s.role[p].Frame?) ensures s.role[p].root != root {
      if s.role[p].Table? {
        assert NodeOk(s, p);
      } else {
        assert FrameOk(s, p);
        assert NodeOk(s, s.role[p].table);
      }
    }
  }

  /** A failed growth is an expansion by no page. */
  lemma GrownIsExpanded(s: View, s': View, root: nat)
    requires Grown(s, s', root)
    ensures ExpandedRoles(s, s', root, {})
  {
    hide Positions;
  }

  /** Every page a new process maps is its own frame, below the size it was grown to. */
  lemma GrownOwnsAll(s: View, s': View, root: nat, sz: Word, xperm: Perm)
    requires AbsMap(s.mem, root) == map[] && sz <= MAXVA && Expanded(s, s', root, ZeroPages(GrowPages(0, sz), xperm))
    ensures forall v :: v in AbsMap(s'.mem, root) ==> v < PgRoundUp(sz) / 4096 && OwnsFrame(s', root, v)
  {
    hide AbsMap, ExpandedRoles, ExpandedCount, MakePte, Ppn, WithReadUser, FrameFor;
    var want := ZeroPages(GrowPages(0, sz), xperm);
    forall v: nat | v in AbsMap(s'.mem, root) ensures v < PgRoundUp(sz) / 4096 && OwnsFrame(s', root, v) {
      assert v in want;
      assert NewPage(s, s', root, v, want[v]);
    }
  }

  /** Create, grow and free: whether or not the growth failed, the allocator ends with the pages it started with, and
      nothing that was in use has changed. */
  method CreateGrowFree(k: Machine, sz: Word, xperm: Perm) returns (grown: bool)
    requires Ok(k) && sz <= MAXVA
    modifies k`view, k`freelist, k.ram
    ensures Ok(k) && k.view.role == old(k.view.role) && |k.view.free| == |old(k.view.free)|
    ensures forall p: nat :: p < |old(k.view.mem)| && !(p in old(k.view.role) && old(k.view.role)[p] == Free) ==>
              p < |k.view.mem| && k.view.mem[p] == old(k.view.mem)[p]
    ensures forall other: nat :: IsRoot(old(k.view), other) ==>
            AbsMap(k.view.mem, other) == AbsMap(old(k.view.mem), other)
  {
    hide AbsMap, Machine.Valid, Inv, Expanded, Grown, FreeTree, KeepsLive, Positions, OwnsFrame, ZeroPages,
        GrowPages, TableCost;
    ghost var s := k.view;
    ListIsFreeSet(s);
    var pagetable;
    ghost var root;
    pagetable, root := UvmCreate(k);
    if pagetable == 0 { return false; }
    ghost var s1 := k.view;
    var r := UvmAlloc(k, pagetable, 0, sz, xperm, root);
    ghost var s2 := k.view;
    if r == sz {
      GrownOwnsAll(s1, s2, root, sz, xperm);
      GrowthRoles(s1, s2, root, ZeroPages(GrowPages(0, sz), xperm));
    } else {
      GrownIsExpanded(s1, s2, root);
    }
    ghost var d := if r == sz then ZeroPages(GrowPages(0, sz), xperm).Keys else {};
    UvmFree(k, pagetable, sz, root);
    FreeUndoes(s, s1, s2, root, d);
    ListIsFreeSet(k.view);
    LifeKept(s, s1, s2, k.view, root, d);
    forall other: nat | IsRoot(s, other) ensures AbsMap(k.view.mem, other) == AbsMap(s.mem, other) {
      UsedKept(s, k.view, other);
    }
    grown := r == sz;
  }

  lemma GrowthRoles(s: View, s': View, root: nat, want: map<nat, Want>)
    requires Expanded(s, s', root, want)
    ensures ExpandedRoles(s, s', root, want.Keys)
  {
    hide ExpandedRoles, ExpandedCount, ExpandedMap;
  }

  /** What was in use at the start still has its contents at the end. */
  lemma LifeKept(s: View, s1: View, s2: View, s3: View, root: nat, d: set<nat>)
    requires Inv(s) && root in s.role && s.role[root] == Free && s1.role == s.role[root := Table(root, 2, 0, root, 0)]
    requires s1.mem == s.mem[root := Filled(0)]
    requires ExpandedRoles(s1, s2, root, d) && KeepsLive(s2, s3, {}) && s3.role == s.role
    ensures |s3.mem| == |s.mem|
    ensures forall p: nat :: p < |s.mem| && !(p in s.role && s.role[p] == Free) ==> s3.mem[p] == s.mem[p]
  {
    hide FreeListOk, EdgesOk, LeavesOk, FramesOk, MakePte;
    forall p: nat | IsTable(s, p) ensures s.role[p].root != root {
      assert NodeOk(s, p);
    }
  }

  lemma UsedKept(s: View, s': View, other: nat)
    requires Inv(s) && IsRoot(s, other) && |s'.mem| == |s.mem| && s'.role == s.role
    requires forall p: nat :: p < |s.mem| && !(p in s.role && s.role[p] == Free) ==> s'.mem[p] == s.mem[p]
    ensures AbsMap(s'.mem, other) == AbsMap(s.mem, other)
  {
    hide AbsMap, FreeListOk, EdgesOk, LeavesOk, NodesOk, FramesOk;
    SameLookup(s, s'.mem, other);
  }
}
