/** The Sv39 translation of the RISC-V Privileged Architecture, sections 4.3.2 and 4.4, as its own definition,
    and its agreement with the software walk. Permissions of the access and the A and D bits are not part of it. */
module Sv39 {
  import opened Riscv
  import opened Wrappers
  import opened PageTable
  import opened Translation

  datatype Outcome = PageFault | Page(ppn: nat, pte: Word)

  /** 512 to the power `level`: the pages that one entry at this level covers. */
  function Span(level: nat): nat {
    if level == 0 then 1 else if level == 1 then 512 else 0x4_0000
  }

  /** Writable but not readable, or with a bit above the page number set: reserved, and a fault. */
  predicate Reserved(pte: Word) {
    (!IsReadable(pte) && IsWritable(pte)) || pte >= 0x40_0000_0000_0000
  }

  /** Steps 2 to 8 of section 4.3.2, from the table page `a` at `level`. */
  function Translate(mem: Memory, a: nat, vpn: nat, level: nat): Outcome
    requires level <= 2
    decreases level
  {
    var i := vpn / Span(level) % 512;
    if a >= |mem| || i >= |mem[a]| then PageFault
    else
      var pte := mem[a][i];
      if !IsValid(pte) || Reserved(pte) then PageFault
      else if IsReadable(pte) || IsExecutable(pte) then
        if Ppn(pte) % Span(level) != 0 then PageFault   // misaligned superpage
        else Page(Ppn(pte) + vpn % Span(level), pte)
      else if level == 0 then PageFault
      else Translate(mem, Ppn(pte), vpn, level - 1)
  }

  lemma SpanPx(level: nat, vpn: nat)
    requires level <= 2
    ensures vpn / Span(level) % 512 == Px(level, vpn)
  {
  }

  /** An entry is a leaf for the software if R, W or X is set; for the hardware, once the reserved ones are out, if R
      or X is. */
  lemma LeafBits(pte: Word)
    ensures IsLeaf(pte) <==> IsReadable(pte) || IsWritable(pte) || IsExecutable(pte)
  {
    Halves(pte);
    ThreeBits(pte / 2);
  }

  /** A number's last three bits. */
  lemma ThreeBits(x: nat)
    ensures x % 8 != 0 <==> x % 2 == 1 || x / 2 % 2 == 1 || x / 2 / 2 % 2 == 1
  {
    var h, q := x / 2, x / 2 / 2;
    assert x == 2 * h + x % 2 && h == 2 * q + h % 2 && q == 2 * (q / 2) + q % 2;
    var low := 4 * (q % 2) + 2 * (h % 2) + x % 2;
    assert x == q / 2 * 8 + low;
    DivModOf(q / 2, low, 8);
  }

  /** An entry that walk links is a pointer to the hardware: valid, not reserved, no R, no X. */
  lemma PointerEntry(c: nat)
    requires c < MAXPAGES
    ensures var w := MakePte(c, 0);
            IsValid(w) && !Reserved(w) && !IsReadable(w) && !IsExecutable(w) && Ppn(w) == c
  {
    MakePteFields(c, 0);
    MakePteBits(c, 0);
  }

  /** From any table on the path, the hardware finds what the software lookup finds, unless the leaf is reserved. */
  lemma {:induction false} TranslateFrom(s: View, root: nat, vpn: nat, level: nat, t: nat)
    requires Inv(s) && IsRoot(s, root) && vpn < NVPN && level <= 2 && TableAt(s.mem, root, vpn, level) == Some(t)
    ensures Translate(s.mem, t, vpn, level) ==
            match Lookup(s.mem, root, vpn)
            case None => PageFault
            case Some(w) => if Reserved(w) then PageFault else Page(Ppn(w), w)
    decreases level
  {
    SpanPx(level, vpn);
    TableAtRole(s, root, vpn, level);
    PxRange(level, vpn);
    hide IsValid, IsLeaf, IsReadable, IsWritable, IsExecutable, Ppn, MakePte, Px, Reserved, TableAt, NodesOk,
        FramesOk, FreeListOk, Prefix;
    var i := Px(level, vpn);
    var w := s.mem[t][i];
    if level > 0 {
      WalkStep(s, root, vpn, level, t);
      assert EdgeOk(s, t, i);
      if IsValid(w) {
        PointerEntry(Ppn(w));
        TranslateFrom(s, root, vpn, level - 1, Ppn(w));
      } else {
        PathEnds(s, root, vpn, level);
      }
    } else {
      assert LeafOk(s, t, i);
      LeafBits(w);
      ReservedBits(w);
    }
  }

  lemma ReservedBits(w: Word)
    ensures !IsReadable(w) && IsWritable(w) ==> Reserved(w)
  {
  }

  /** The two agree on every page number: a page is translated exactly if it is mapped by an entry that is not
      reserved. */
  lemma HardwareAgrees(s: View, root: nat, vpn: nat)
    requires Inv(s) && IsRoot(s, root) && vpn < NVPN
    ensures vpn in AbsMap(s.mem, root) && !Reserved(AbsMap(s.mem, root)[vpn]) ==>
              Translate(s.mem, root, vpn, 2) == Page(Ppn(AbsMap(s.mem, root)[vpn]), AbsMap(s.mem, root)[vpn])
    ensures vpn !in AbsMap(s.mem, root) || Reserved(AbsMap(s.mem, root)[vpn]) ==>
            Translate(s.mem, root, vpn, 2) == PageFault
  {
    hide Lookup, Translate, Reserved, Ppn;
    TranslateFrom(s, root, vpn, 2, root);
    NotMapped(s, root, vpn);
  }

  /** walkaddr's answer against the hardware: a non-zero answer names the frame that user code reaches there, unless
      the entry is reserved (the software does not look for that); 0 means user code faults, or reaches frame 0. */
  lemma UserFrameAgrees(s: View, root: nat, va: Word)
    requires Inv(s) && IsRoot(s, root) && va < MAXVA
    ensures var vpn, m, t := va / 4096, AbsMap(s.mem, root), Translate(s.mem, root, va / 4096, 2);
            && (t.Page? && IsUser(t.pte) ==> UserFrame(s.mem, root, va) == t.ppn * 4096 % 0x1_0000_0000_0000_0000)
            && (UserFrame(s.mem, root, va) != 0 ==>
                  vpn in m && (Reserved(m[vpn]) || (t == Page(Ppn(m[vpn]), m[vpn]) && IsUser(t.pte))))
  {
    hide AbsMap, Translate, Reserved, IsUser;
    HardwareAgrees(s, root, va / 4096);
  }
}
