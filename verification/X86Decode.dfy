/**
 * What the words of an x86 page table say in terms of the tree model: the accessors do to words what the model does
 * to entries.
 */
module X86Decode {
  import opened Arithmetic
  import opened PageTree
  import opened PageOps
  import opened X86Entry

  /** The number in the lowest n bits of a word. */
  function Bits(w: bv64, n: nat): nat {
    if n == 0 then 0 else Low(w) + 2 * Bits(Half(w), n - 1)
  }

  function Low(w: bv64): nat { if w & 1 == 1 then 1 else 0 }

  function Half(w: bv64): bv64 { w >> 1 }

  /** The page number of an address; physical addresses have 52 bits. */
  function Frame(w: bv64): nat { Bits(PageBits(w), 40) }

  function PageBits(w: bv64): bv64 { w >> 12 }

  function Flags(w: bv64): nat { Bits(w, 7) }

  /** An entry of the last level. */
  function DecodeL1(w: bv64): Pte {
    if EntryValid(w) then Page(Frame(GetNextPt(w)), Flags(GetFlags(w))) else Absent
  }

  /** An entry of the level that has 2 MiB pages; a link names its table by the page number. */
  function DecodeL2(w: bv64): Pte {
    if !EntryValid(w) then Absent
    else if IsHuge(w) then Page(Frame(HugeBase(w)), Flags(GetFlags(w)))
    else Next(Frame(GetNextPt(w)))
  }

  predicate IsHuge(w: bv64) { w & 0x80 != 0 }

  function HugeBase(w: bv64): bv64 { w & 0x000f_ffff_ffe0_0000 }

  // ---- Numbers in words ----

  /** A word shifted right by n. */
  function Shifted(w: bv64, n: nat): bv64 {
    if n == 0 then w else Shifted(Half(w), n - 1)
  }

  function Or(a: bv64, b: bv64): bv64 { a | b }

  function And(a: bv64, b: bv64): bv64 { a & b }

  lemma {:induction false} BitsBound(w: bv64, n: nat)
    ensures Bits(w, n) < Pow2(n)
    decreases n
  {
    hide Half, Low;
    if n > 0 {
      BitsBound(Half(w), n - 1);
      LowBound(w);
    }
  }

  lemma LowBound(w: bv64)
    ensures Low(w) <= 1
  {
  }

  /** The number in n + k bits is made of those in the lower n and the upper k. */
  lemma {:induction false} BitsCut(w: bv64, n: nat, k: nat)
    ensures Bits(w, n + k) == Bits(w, n) + Pow2(n) * Bits(Shifted(w, n), k)
    decreases n
  {
    hide Half, Low;
    if n > 0 {
      BitsCut(Half(w), n - 1, k);
      Regroup(Low(w), Bits(Half(w), n - 1), Pow2(n - 1), Bits(Shifted(w, n), k));
      assert Bits(w, n + k) == Low(w) + 2 * Bits(Half(w), n - 1 + k);
    }
  }

  lemma Regroup(low: nat, mid: nat, scale: nat, rest: nat)
    ensures low + 2 * (mid + scale * rest) == low + 2 * mid + 2 * scale * rest
  {
  }

  lemma ShiftedBy9(w: bv64)
    ensures Shifted(w, 9) == w >> 9
  {
    ShiftedHalves(w);
    NineHalves(w);
  }

  lemma ShiftedHalves(w: bv64)
    ensures Shifted(w, 9) == Half(Half(Half(Half(Half(Half(Half(Half(Half(w)))))))))
  {
    hide Half;
    var h := Half(Half(Half(w)));
    ShiftedTwice(w, 3, 6);
    ShiftedTwice(h, 3, 3);
    ShiftedThrice(w);
    ShiftedThrice(h);
    ShiftedThrice(Half(Half(Half(h))));
  }

  lemma ShiftedThrice(w: bv64)
    ensures Shifted(w, 3) == Half(Half(Half(w)))
  {
    hide Half;
    assert Shifted(w, 3) == Shifted(Half(w), 2) == Shifted(Half(Half(w)), 1);
  }

  lemma NineHalves(w: bv64)
    ensures Half(Half(Half(Half(Half(Half(Half(Half(Half(w))))))))) == w >> 9
  {
  }

  lemma {:induction false} ShiftedTwice(w: bv64, n: nat, m: nat)
    ensures Shifted(w, n + m) == Shifted(Shifted(w, n), m)
    decreases n
  {
    hide Half;
    if n > 0 {
      ShiftedTwice(Half(w), n - 1, m);
    }
  }

  lemma ShiftedBy20(w: bv64)
    ensures Shifted(w, 20) == w >> 20
  {
    ShiftedParts(w);
    ShiftParts(w);
  }

  lemma ShiftedParts(w: bv64)
    ensures Shifted(w, 20) == Half(Half(Nine(Nine(w))))
  {
    hide Half, Nine;
    ShiftedTwice(w, 9, 11);
    ShiftedTwice(Nine(w), 9, 2);
    ShiftedNine(w);
    ShiftedNine(Nine(w));
    assert Shifted(Nine(Nine(w)), 2) == Shifted(Half(Nine(Nine(w))), 1);
  }

  function Nine(w: bv64): bv64 { w >> 9 }

  lemma ShiftedNine(w: bv64)
    ensures Shifted(w, 9) == Nine(w)
  {
    ShiftedBy9(w);
  }

  lemma ShiftParts(w: bv64)
    ensures Half(Half(Nine(Nine(w)))) == w >> 20
  {
  }

  lemma {:induction false} BitsZero(n: nat)
    ensures Bits(0, n) == 0
    decreases n
  {
    if n > 0 {
      BitsZero(n - 1);
    }
  }

  /** The words that have their lowest n bits set. */
  predicate Ones(m: bv64, n: nat) {
    n == 0 || (Low(m) == 1 && Ones(Half(m), n - 1))
  }

  lemma {:induction false} BitsMasked(w: bv64, m: bv64, n: nat)
    requires Ones(m, n)
    ensures Bits(And(w, m), n) == Bits(w, n)
    decreases n
  {
    hide Half, Low, And;
    if n > 0 {
      MaskHalves(w, m);
      BitsMasked(Half(w), Half(m), n - 1);
    }
  }

  lemma MaskHalves(w: bv64, m: bv64)
    ensures Half(And(w, m)) == And(Half(w), Half(m))
    ensures Low(m) == 1 ==> Low(And(w, m)) == Low(w)
  {
  }

  /** Words without common bits add up. */
  lemma {:induction false} BitsOr(a: bv64, b: bv64, n: nat)
    requires And(a, b) == 0
    ensures Bits(Or(a, b), n) == Bits(a, n) + Bits(b, n)
    decreases n
  {
    hide Half, Low, And, Or;
    if n > 0 {
      OrHalves(a, b);
      BitsOr(Half(a), Half(b), n - 1);
    }
  }

  lemma OrHalves(a: bv64, b: bv64)
    requires And(a, b) == 0
    ensures Half(Or(a, b)) == Or(Half(a), Half(b)) && And(Half(a), Half(b)) == 0
    ensures Low(Or(a, b)) == Low(a) + Low(b)
  {
    assert !(a & 1 == 1 && b & 1 == 1);
    assert (a | b) & 1 == 1 <==> a & 1 == 1 || b & 1 == 1;
    assert (a >> 1) & (b >> 1) == 0 && (a | b) >> 1 == (a >> 1) | (b >> 1);
  }

  lemma FlagsOdd(w: bv64)
    ensures Flags(w) % 2 == 1 <==> EntryValid(w)
  {
    LowOdd(w);
    FlagsLow(w);
  }

  lemma FlagsLow(w: bv64)
    ensures Flags(w) % 2 == Low(w)
  {
    hide Half, Low;
    LowBound(w);
    var rest := Bits(Half(w), 6);
    assert Flags(w) == Low(w) + 2 * rest;
  }

  lemma LowOdd(w: bv64)
    ensures Low(w) == 1 <==> EntryValid(w)
  {
    assert w & 1 != 0 <==> w & 1 == 1;
  }

  // ---- Writing entries ----

  /**
   * Writing a 4 KiB entry writes the terminal entry of the model, which is absent if the flags lack the present bit.
   */
  lemma DecodeSetL1(phys: bv64, flags: bv64)
    requires phys & 0x000f_ffff_ffff_f000 == phys && flags & 0x7f == flags
    ensures DecodeL1(SetTerminalL1(phys, flags)) == Terminal(Frame(phys), Flags(flags))
  {
    hide Frame, Flags;
    PageWords(phys, flags);
    FlagsOdd(flags);
  }

  lemma PageWords(phys: bv64, flags: bv64)
    requires phys & 0x000f_ffff_ffff_f000 == phys && flags & 0x7f == flags
    ensures GetNextPt(SetTerminalL1(phys, flags)) == phys && GetFlags(SetTerminalL1(phys, flags)) == flags
    ensures EntryValid(SetTerminalL1(phys, flags)) <==> EntryValid(flags)
  {
  }

  /** So does writing a 2 MiB entry. */
  lemma DecodeSetL2(phys: bv64, flags: bv64)
    requires phys & 0x000f_ffff_ffe0_0000 == phys && flags & 0x7f == flags
    ensures DecodeL2(SetTerminalL2(phys, flags)) == Terminal(Frame(phys), Flags(flags))
  {
    hide Frame, Flags;
    HugeFrame(phys, flags);
    HugePageReadsBack(phys, flags, 0);
    HugeFlags(phys, flags);
    FlagsOdd(flags);
  }

  /** Writing a link. */
  lemma DecodeSetNext(nextPt: bv64, linkFlags: bv64)
    requires nextPt & 0x000f_ffff_ffff_f000 == nextPt
    requires linkFlags == PAGE_DEFAULT_FLAGS || linkFlags == EPT_LINK_FLAGS
    ensures DecodeL2(SetNextPt(nextPt, linkFlags)) == Next(Frame(nextPt))
  {
    hide Frame, Flags;
    LinkReadsBack(nextPt, linkFlags, 0);
  }

  // ---- Reading entries ----

  /** get_phys on a 4 KiB entry: every address of the page is in the page's frame. */
  lemma PhysOfL1(w: bv64, virt: bv64)
    requires EntryValid(w)
    ensures Frame(GetPhysL1(w, virt)) == DecodeL1(w).pfn
  {
    hide Bits, PageBits, GetPhysL1, GetNextPt, EntryValid;
    PhysL1Words(w, virt);
  }

  lemma PhysL1Words(w: bv64, virt: bv64)
    ensures PageBits(GetPhysL1(w, virt)) == PageBits(GetNextPt(w))
  {
    PhysFrame(w, virt);
    NextFrame(w);
  }

  lemma PhysFrame(w: bv64, virt: bv64)
    ensures PageBits(GetPhysL1(w, virt)) == (w >> 12) & 0xff_ffff_ffff
  {
  }

  lemma NextFrame(w: bv64)
    ensures PageBits(GetNextPt(w)) == (w >> 12) & 0xff_ffff_ffff
  {
  }

  /** get_phys on a 2 MiB entry: page j of the block is in frame j after the block's. */
  lemma PhysOfL2(w: bv64, virt: bv64)
    requires EntryValid(w) && IsHuge(w)
    ensures Frame(GetPhysL2(w, virt)) == DecodeL2(w).pfn + Frame(virt) % ENTRIES
  {
    hide Bits, PageBits, GetPhysL2, HugeBase, EntryValid, IsHuge, And, Or;
    PhysL2Words(w, virt);
    BitsOr(PageBits(HugeBase(w)), And(PageBits(virt), 0x1ff), 40);
    LowIndex(PageBits(virt), 31);
    SmallIndex(PageBits(virt));
  }

  lemma PhysL2Words(w: bv64, virt: bv64)
    requires IsHuge(w)
    ensures PageBits(GetPhysL2(w, virt)) == Or(PageBits(HugeBase(w)), And(PageBits(virt), 0x1ff))
    ensures And(PageBits(HugeBase(w)), And(PageBits(virt), 0x1ff)) == 0
  {
  }

  /** The lowest nine bits are the remainder by 512, the others the quotient. */
  lemma LowIndex(w: bv64, k: nat)
    ensures Bits(w, 9 + k) % ENTRIES == Bits(And(w, 0x1ff), 9) && Bits(w, 9 + k) / ENTRIES == Bits(Nine(w), k)
  {
    hide Bits, And, Nine, Shifted;
    BitsCut(w, 9, k);
    ShiftedNine(w);
    NineOnes();
    BitsMasked(w, 0x1ff, 9);
    BitsBound(w, 9);
    Powers();
  }

  lemma NineOnes()
    ensures Ones(0x1ff, 9)
  {
  }

  lemma Powers()
    ensures Pow2(9) == ENTRIES && Pow2(20) == BELOW_4G
  {
  }

  /** An index has no other bits than nine. */
  lemma SmallIndex(w: bv64)
    ensures Bits(And(w, 0x1ff), 40) == Bits(And(w, 0x1ff), 9)
  {
    hide Bits, Shifted, And, Nine;
    BitsCut(And(w, 0x1ff), 9, 31);
    ShiftedNine(And(w, 0x1ff));
    IndexEnds(w);
    BitsZero(31);
  }

  lemma IndexEnds(w: bv64)
    ensures Nine(And(w, 0x1ff)) == 0
  {
  }

  // ---- Walking ----

  /** The four table indices of an address are the path of its page. */
  lemma IndicesArePath(virt: bv64)
    ensures PathOf(Frame(virt), 4)
            == [Bits(IndexL4(virt), 9), Bits(IndexL3(virt), 9), Bits(IndexL2(virt), 9), Bits(IndexL1(virt), 9)]
  {
    hide Bits, And, Nine, PageBits, IndexL1, IndexL2, IndexL3, IndexL4;
    IndexWords(virt);
    var v := Frame(virt);
    LowIndex(PageBits(virt), 31);
    LowIndex(Nine(PageBits(virt)), 22);
    LowIndex(Nine(Nine(PageBits(virt))), 13);
    LowIndex(Nine(Nine(Nine(PageBits(virt)))), 4);
    PathOf4(v);
  }

  lemma PathOf4(v: nat)
    ensures PathOf(v, 4) == [v / ENTRIES / ENTRIES / ENTRIES % ENTRIES, v / ENTRIES / ENTRIES % ENTRIES,
                             v / ENTRIES % ENTRIES, v % ENTRIES]
  {
    assert PathOf(v, 4) == PathOf(v / ENTRIES, 3) + [v % ENTRIES];
    assert PathOf(v / ENTRIES, 3) == PathOf(v / ENTRIES / ENTRIES, 2) + [v / ENTRIES % ENTRIES];
  }

  lemma IndexWords(virt: bv64)
    ensures IndexL1(virt) == And(PageBits(virt), 0x1ff)
    ensures IndexL2(virt) == And(Nine(PageBits(virt)), 0x1ff)
    ensures IndexL3(virt) == And(Nine(Nine(PageBits(virt))), 0x1ff)
    ensures IndexL4(virt) == And(Nine(Nine(Nine(PageBits(virt)))), 0x1ff)
  {
  }

  // ---- Splitting ----

  /**
   * split_hugepage on words: the new entry for an address of the block decodes to the entry the model writes, which
   * is the old translation only below 4 GiB.
   */
  lemma SplitDecodes(w: bv64, virt: bv64)
    requires EntryValid(w) && IsHuge(w)
    ensures DecodeL1(SplitEntry(w, virt))
            == Page(DecodeL2(w).pfn % BELOW_4G + Frame(virt) % ENTRIES, DecodeL2(w).flags)
  {
    SplitWord(w, virt);
    SplitFrames(w, virt);
    assert EntryValid(SplitEntry(w, virt)) && GetFlags(SplitEntry(w, virt)) == GetFlags(w);
    hide Frame, Flags, GetNextPt, HugeBase, EntryValid, IsHuge, GetFlags, SplitEntry;
  }

  lemma SplitFrames(w: bv64, virt: bv64)
    requires IsHuge(w)
    ensures Frame(GetNextPt(SplitEntry(w, virt))) == Frame(HugeBase(w)) % BELOW_4G + Frame(virt) % ENTRIES
  {
    hide Bits, PageBits, GetNextPt, HugeBase, SplitEntry, IsHuge, And, Or;
    SplitFrameWords(w, virt);
    BitsOr(And(PageBits(w), 0xf_fe00), And(PageBits(virt), 0x1ff), 40);
    LowIndex(PageBits(virt), 31);
    SmallIndex(PageBits(virt));
    LowFrame(w);
  }

  lemma SplitFrameWords(w: bv64, virt: bv64)
    requires IsHuge(w)
    ensures PageBits(GetNextPt(SplitEntry(w, virt))) == Or(And(PageBits(w), 0xf_fe00), And(PageBits(virt), 0x1ff))
    ensures And(And(PageBits(w), 0xf_fe00), And(PageBits(virt), 0x1ff)) == 0
  {
    SplitBits(w, virt);
  }

  lemma LowFrame(w: bv64)
    ensures Bits(And(PageBits(w), 0xf_fe00), 40) == Frame(HugeBase(w)) % BELOW_4G
  {
    hide Bits, PageBits, HugeBase, And, Shifted, Pow2, Ones;
    var p, q := PageBits(HugeBase(w)), And(PageBits(w), 0xf_fe00);
    LowFrameWords(w);
    BitsCut(p, 20, 20);
    BitsCut(q, 20, 20);
    BitsZero(20);
    TwentyOnes();
    BitsMasked(p, 0xf_ffff, 20);
    BitsBound(p, 20);
    Powers();
  }

  lemma LowFrameWords(w: bv64)
    ensures And(PageBits(w), 0xf_fe00) == And(PageBits(HugeBase(w)), 0xf_ffff)
    ensures Shifted(And(PageBits(w), 0xf_fe00), 20) == 0
  {
    ShiftedBy20(And(PageBits(w), 0xf_fe00));
  }

  lemma TwentyOnes()
    ensures Ones(0xf_ffff, 20)
  {
    NineOnes();
    ShiftedBy9(0xf_ffff);
    ShiftedBy9(0x7ff);
    assert Ones(0x7ff, 9) && Ones(0x3, 2);
    OnesJoin(0x7ff, 9, 2);
    OnesJoin(0xf_ffff, 9, 11);
  }

  lemma {:induction false} OnesJoin(m: bv64, n: nat, k: nat)
    requires Ones(m, n) && Ones(Shifted(m, n), k)
    ensures Ones(m, n + k)
    decreases n
  {
    hide Half, Low;
    if n > 0 {
      OnesJoin(Half(m), n - 1, k);
    }
  }
}
