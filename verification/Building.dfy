/** A process image under construction: what each step of proc_born adds, and that nothing live is touched. */
module Building {
  import opened Riscv
  import opened PageTable
  import opened Translation
  import opened Ownership

  /** Pages in use before keep their role and contents; so does memory that is not managed. */
  ghost predicate LiveKept(s: View, s': View) {
    && |s'.mem| == |s.mem| && s'.role.Keys == s.role.Keys
    && (forall p: nat :: p in s.role && s.role[p] != Free ==> s'.role[p] == s.role[p])
    && (forall p: nat :: p < |s.mem| && !(p in s.role && s.role[p] == Free) ==> s'.mem[p] == s.mem[p])
  }

  /** Memory that is not managed keeps its contents. */
  ghost predicate UnmanagedKept(s: View, s': View) {
    && |s'.mem| == |s.mem| && s'.role.Keys == s.role.Keys
    && (forall p: nat :: p < |s.mem| && p !in s.role ==> s'.mem[p] == s.mem[p])
  }

  lemma LiveIsUnmanaged(s: View, s': View)
    requires LiveKept(s, s')
    ensures UnmanagedKept(s, s')
  {
  }

  lemma UnmanagedTransitive(s0: View, s1: View, s2: View)
    requires UnmanagedKept(s0, s1) && UnmanagedKept(s1, s2)
    ensures UnmanagedKept(s0, s2)
  {
  }

  /** Growing a tree that did not exist at s0 leaves everything live at s0 alone. */
  lemma LiveKeptGrown(s0: View, s: View, s': View, root: nat)
    requires Inv(s0) && LiveKept(s0, s) && Grown(s, s', root) && root in s0.role && s0.role[root] == Free
    ensures LiveKept(s0, s')
  {
    hide Positions, FreeListOk, EdgesOk, LeavesOk, FramesOk, MakePte;
    forall p: nat | p in s0.role && s0.role[p] != Free ensures !TableOf(s, p, root) {
      if IsTable(s0, p) { assert NodeOk(s0, p); }
    }
  }

  /** A new empty tree. */
  lemma LiveKeptCreate(s: View, s': View, root: nat)
    requires root in s.role && s.role[root] == Free && root < |s.mem|
    requires s'.role == s.role[root := Table(root, 2, 0, root, 0)] && s'.mem == s.mem[root := Filled(0)]
    ensures LiveKept(s, s')
  {
  }

  /** Trees that exist are live: what leaves live pages alone leaves their translations alone. */
  lemma LiveTrees(s: View, s': View, root: nat)
    requires Inv(s) && LiveKept(s, s') && IsRoot(s, root)
    ensures IsRoot(s', root) && AbsMap(s'.mem, root) == AbsMap(s.mem, root)
  {
    hide AbsMap, FreeListOk, EdgesOk, LeavesOk, NodesOk, FramesOk;
    SameLookup(s, s'.mem, root);
  }

  lemma LiveKeptTransitive(s0: View, s1: View, s2: View)
    requires LiveKept(s0, s1) && LiveKept(s1, s2)
    ensures LiveKept(s0, s2)
  {
  }

  lemma LiveKeptRefl(s: View)
    ensures LiveKept(s, s)
  {
  }

  lemma LiveKeptSize(s: View, s': View)
    requires LiveKept(s, s')
    ensures |s'.mem| == |s.mem| && s'.role.Keys == s.role.Keys
  {
  }

  /** A page taken from the list, with its holder and what has been written to it. */
  datatype Hold = Hold(owner: nat, page: seq<Word>)

  ghost predicate HoldsOk(s0: View, s: View, held: map<nat, Hold>) {
    forall p: nat :: p in held ==>
      && p in s0.role && s0.role[p] == Free && p in s.role && s.role[p] == Held(held[p].owner)
      && p < |s.mem| && s.mem[p] == held[p].page
  }

  /** The tree under construction: a new one, mapping m, with tables at the given places. */
  ghost predicate TreeOk(s0: View, s: View, root: nat, m: map<nat, Word>, places: set<(nat, nat)>) {
    && IsRoot(s, root) && root in s0.role && s0.role[root] == Free
    && AbsMap(s.mem, root) == m && Positions(s, root) == places
  }

  /** `used` pages have been taken since s0, those in `held` and those of the tree. */
  ghost predicate Under(s0: View, s: View, held: map<nat, Hold>, used: nat) {
    Inv(s) && LiveKept(s0, s) && HoldsOk(s0, s, held) && |s.free| + used == |s0.free|
  }

  /** kalloc. */
  lemma UnderKalloc(s0: View, s: View, held: map<nat, Hold>, used: nat, owner: nat)
    requires Under(s0, s, held, used) && |s.free| > 0
    ensures s.free[0] in s.role && s.role[s.free[0]] == Free && 0 < s.free[0] < |s.mem| <= MAXPAGES
            && ListAddr(s.free, 1) < WORD_MODULUS
    ensures s.free[0] !in held && s.free[0] in Pop(s).role
    ensures var q := s.free[0];
            var s' := SetRole(Pop(s), q, Held(owner));
            Under(s0, s', held[q := Hold(owner, Filled(JUNK_ALLOCATED))], used + 1)
  {
    hide NodesOk, EdgesOk, LeavesOk, FramesOk, FreeListOk;
    var q := s.free[0];
    AllocPageInv(s, Filled(JUNK_ALLOCATED));
    PopEffect(s);
    HeldInv(AllocFill(s, Filled(JUNK_ALLOCATED)), q, Filled(JUNK_ALLOCATED), owner);
    assert SetPage(AllocFill(s, Filled(JUNK_ALLOCATED)), q, Filled(JUNK_ALLOCATED)) == AllocFill(s,
        Filled(JUNK_ALLOCATED));
    hide Pop;
  }

  lemma PopEffect(s: View)
    requires |s.free| > 0 && s.free[0] < |s.mem| && ListAddr(s.free, 1) < WORD_MODULUS
    ensures Pop(s) == AllocFill(s, Filled(JUNK_ALLOCATED))
  {
  }

  lemma TreeKalloc(s0: View, s: View, root: nat, m: map<nat, Word>, places: set<(nat, nat)>, owner: nat)
    requires Inv(s) && |s.free| > 0 && TreeOk(s0, s, root, m, places)
    requires s.free[0] in s.role && s.free[0] < |s.mem| && ListAddr(s.free, 1) < WORD_MODULUS
    ensures TreeOk(s0, SetRole(Pop(s), s.free[0], Held(owner)), root, m, places)
  {
    hide NodesOk, EdgesOk, LeavesOk, FramesOk, AbsMap, Positions;
    ListedIsFree(s, s.free[0]);
    var s' := SetRole(Pop(s), s.free[0], Held(owner));
    SameLookup(s, s'.mem, root);
    PositionsKept(s, s', root);
  }

  /** Writing a held page. */
  lemma UnderWrite(s0: View, s: View, held: map<nat, Hold>, used: nat, p: nat, page: seq<Word>)
    requires Under(s0, s, held, used) && p in held && |page| == SLOTS && p < |s.mem|
    ensures Under(s0, SetPage(s, p, page), held[p := Hold(held[p].owner, page)], used)
  {
    hide NodesOk, EdgesOk, LeavesOk, FramesOk, FreeListOk;
    HeldInv(s, p, page, held[p].owner);
  }

  lemma TreeWrite(s0: View, s: View, root: nat, m: map<nat, Word>, places: set<(nat, nat)>, p: nat, page: seq<Word>)
    requires Inv(s) && TreeOk(s0, s, root, m, places) && p in s.role && s.role[p].Held? && p < |s.mem|
    ensures TreeOk(s0, SetPage(s, p, page), root, m, places)
  {
    hide NodesOk, EdgesOk, LeavesOk, FramesOk, AbsMap, Positions, FreeListOk;
    SameLookup(s, SetPage(s, p, page).mem, root);
    PositionsKept(s, SetPage(s, p, page), root);
  }

  /** uvmcreate. */
  lemma UnderCreate(s0: View, s: View, held: map<nat, Hold>, used: nat, s': View, root: nat)
    requires Under(s0, s, held, used) && Inv(s') && IsRoot(s', root) && root in s.role && s.role[root] == Free
             && |s.free| > 0
    requires s'.role == s.role[root := Table(root, 2, 0, root, 0)] && s'.free == s.free[1..]
             && s'.mem == s.mem[root := Filled(0)]
    ensures Under(s0, s', held, used + 1) && root in s0.role && s0.role[root] == Free
  {
    hide NodesOk, EdgesOk, LeavesOk, FramesOk, FreeListOk;
  }

  /** The tables that mapping page v takes, from the places a tree has. */
  ghost function PlaceCost(places: set<(nat, nat)>, v: nat): nat {
    |Needed(v) - places|
  }

  lemma PlaceCostSize(places: set<(nat, nat)>, v: nat)
    ensures |places + Needed(v)| == |places| + PlaceCost(places, v)
  {
    hide Needed;
    assert places + Needed(v) == places + (Needed(v) - places) && places !! (Needed(v) - places);
  }

  /** mappages of one page. */
  lemma UnderMap(s0: View, s: View, held: map<nat, Hold>, used: nat, root: nat, m: map<nat, Word>,
      places: set<(nat, nat)>, s': View, v: nat, w: Word)
    requires Inv(s0) && Under(s0, s, held, used) && TreeOk(s0, s, root, m, places)
    requires Inv(s') && IsRoot(s', root) && Grown(s, s', root)
    requires AbsMap(s'.mem, root) == m[v := w] && Positions(s', root) == places + Needed(v)
    ensures Under(s0, s', held, used + PlaceCost(places, v))
    ensures TreeOk(s0, s', root, m[v := w], places + Needed(v))
  {
    hide AbsMap, Positions, FreeListOk, EdgesOk, LeavesOk, FramesOk, Needed, MakePte;
    GrownSize(s, s', root);
    PlaceCostSize(places, v);
    forall p: nat | p in s0.role && s0.role[p] != Free ensures !TableOf(s, p, root) {
      if IsTable(s0, p) { assert NodeOk(s0, p); }
    }
  }

  lemma OnePageCost(s: View, root: nat, v: nat)
    ensures NeededOf({v}) == Needed(v) && TableCost(s, root, {v}) == PlaceCost(Positions(s, root), v)
  {
    hide Positions, Needed;
    NeededOfAdd({}, v);
    assert NeededOf({}) == {} && {} + {v} == {v};
  }

  /** A held page becomes the frame of the mapping that points to it. */
  lemma UnderAdopt(s0: View, s: View, held: map<nat, Hold>, used: nat, root: nat, m: map<nat, Word>,
      places: set<(nat, nat)>, v: nat, q: nat)
    returns (t: nat)
    requires Under(s0, s, held, used) && TreeOk(s0, s, root, m, places) && q in held && v < NVPN && v in m
             && Ppn(m[v]) == q
    ensures var s' := SetRole(s, q, Frame(root, v, t, Px(0, v)));
            Under(s0, s', held - {q}, used) && TreeOk(s0, s', root, m, places) && FrameFor(s', q, root, v)
                && s'.mem[q] == held[q].page
  {
    hide AbsMap, Positions, FreeListOk, EdgesOk, LeavesOk, FramesOk, NodesOk, MakePte, IsValid, Ppn, Px, TableAt,
        Prefix;
    t := AdoptMapped(s, root, v, q);
    PositionsKept(s, SetRole(s, q, Frame(root, v, t, Px(0, v))), root);
  }
}
