/** The x86-64 page-table entry accessors on 64-bit words: writing and reading back. */
module X86Entry {

  const INVALID_PHYS_ADDR: bv64 := 0xffff_ffff_ffff_ffff

  /** Link flags: hypervisor and VT-d tables use present and writable, EPT adds execute. */
  const PAGE_DEFAULT_FLAGS: bv64 := 0x03
  const EPT_LINK_FLAGS: bv64 := 0x07

  // ---- The accessors; L1 are the leaf tables, L2 the tables of 2 MiB entries, L4 the root ----

  predicate EntryValid(w: bv64) { w & 1 != 0 }

  function GetFlags(w: bv64): bv64 { w & 0x7f }

  function SetNextPt(nextPt: bv64, linkFlags: bv64): bv64 { (nextPt & 0x000f_ffff_ffff_f000) | linkFlags }

  function GetNextPt(w: bv64): bv64 { w & 0x000f_ffff_ffff_f000 }

  function SetTerminalL1(phys: bv64, flags: bv64): bv64 { (phys & 0x000f_ffff_ffff_f000) | flags }

  function SetTerminalL2(phys: bv64, flags: bv64): bv64 { (phys & 0x000f_ffff_ffe0_0000) | 0x80 | flags }

  function GetPhysL1(w: bv64, virt: bv64): bv64 { (w & 0x000f_ffff_ffff_f000) | (virt & 0x0fff) }

  function GetPhysL2(w: bv64, virt: bv64): bv64 {
    if w & 0x80 == 0 then INVALID_PHYS_ADDR else (w & 0x000f_ffff_ffe0_0000) | (virt & 0x001f_ffff)
  }

  function IndexL1(virt: bv64): bv64 { (virt >> 12) & 0x1ff }
  function IndexL2(virt: bv64): bv64 { (virt >> 21) & 0x1ff }
  function IndexL3(virt: bv64): bv64 { (virt >> 30) & 0x1ff }
  function IndexL4(virt: bv64): bv64 { (virt >> 39) & 0x1ff }

  // ---- Reading back ----

  /** A 2 MiB entry reads back as its frame with the offset of the address, its flags, and valid if these say so. */
  lemma HugePageReadsBack(phys: bv64, flags: bv64, virt: bv64)
    requires phys & 0x000f_ffff_ffe0_0000 == phys && flags & 0x7f == flags
    ensures GetPhysL2(SetTerminalL2(phys, flags), virt) == phys | (virt & 0x001f_ffff)
    ensures GetPhysL2(SetTerminalL2(phys, flags), virt) != INVALID_PHYS_ADDR
    ensures GetFlags(SetTerminalL2(phys, flags)) == flags
    ensures EntryValid(SetTerminalL2(phys, flags)) <==> flags & 1 != 0
  {
    HugeFrame(phys, flags);
    HugeFlags(phys, flags);
    HugeAddress(phys, virt);
  }

  lemma HugeFrame(phys: bv64, flags: bv64)
    requires phys & 0x000f_ffff_ffe0_0000 == phys && flags & 0x7f == flags
    ensures SetTerminalL2(phys, flags) & 0x000f_ffff_ffe0_0000 == phys
  {
  }

  lemma HugeFlags(phys: bv64, flags: bv64)
    requires flags & 0x7f == flags
    ensures SetTerminalL2(phys, flags) & 0x7f == flags
    ensures SetTerminalL2(phys, flags) & 1 == flags & 1
    ensures SetTerminalL2(phys, flags) & 0x80 != 0
  {
  }

  lemma HugeAddress(phys: bv64, virt: bv64)
    requires phys & 0x000f_ffff_ffe0_0000 == phys
    ensures phys | (virt & 0x001f_ffff) != INVALID_PHYS_ADDR
  {
    assert (phys | (virt & 0x001f_ffff)) & 0x8000_0000_0000_0000 == 0;
  }

  /** A link reads back as the table it was written for; it is valid and not taken for a page. */
  lemma LinkReadsBack(nextPt: bv64, linkFlags: bv64, virt: bv64)
    requires nextPt & 0x000f_ffff_ffff_f000 == nextPt
    requires linkFlags == PAGE_DEFAULT_FLAGS || linkFlags == EPT_LINK_FLAGS
    ensures GetNextPt(SetNextPt(nextPt, linkFlags)) == nextPt && EntryValid(SetNextPt(nextPt, linkFlags))
    ensures GetPhysL2(SetNextPt(nextPt, linkFlags), virt) == INVALID_PHYS_ADDR
  {
  }

  /**
   * split_hugepage on words: with its frame masked by a 32-bit page mask, the new 4 KiB entry for an address gives
   * the address it had before if and only if the 2 MiB page lies below 4 GiB. Flags are kept in any case.
   */
  lemma SplitWord(w: bv64, virt: bv64)
    requires EntryValid(w) && w & 0x80 != 0
    ensures EntryValid(SplitEntry(w, virt)) && GetFlags(SplitEntry(w, virt)) == GetFlags(w)
    ensures GetPhysL1(SplitEntry(w, virt), virt) == GetPhysL2(w, virt) <==> w & 0x000f_ffff_0000_0000 == 0
  {
    SplitBits(w, virt);
  }

  /** The 4 KiB entry that the split writes for an address of the 2 MiB page. */
  function SplitEntry(w: bv64, virt: bv64): bv64 {
    SetTerminalL1((GetPhysL2(w, virt) & 0xffe0_0000) + (virt & 0x001f_f000), GetFlags(w))
  }

  lemma SplitBits(w: bv64, virt: bv64)
    ensures ((w & 0x000f_ffff_ffe0_0000) | (virt & 0x001f_ffff)) & 0xffe0_0000 == w & 0xffe0_0000
    ensures (w & 0xffe0_0000) + (virt & 0x001f_f000) == (w & 0xffe0_0000) | (virt & 0x001f_f000)
    ensures ((((w & 0xffe0_0000) | (virt & 0x001f_f000)) & 0x000f_ffff_ffff_f000) | (w & 0x7f)) & 0x7f == w & 0x7f
    ensures ((((w & 0xffe0_0000) | (virt & 0x001f_f000)) & 0x000f_ffff_ffff_f000) | (w & 0x7f)) & 1 == w & 1
    ensures ((((w & 0xffe0_0000) | (virt & 0x001f_f000)) & 0x000f_ffff_ffff_f000) | (w & 0x7f)) & 0x000f_ffff_ffff_f000
            == (w & 0xffe0_0000) | (virt & 0x001f_f000)
    ensures (((w & 0xffe0_0000) | (virt & 0x001f_f000)) | (virt & 0xfff)
             == (w & 0x000f_ffff_ffe0_0000) | (virt & 0x001f_ffff)) <==> w & 0x000f_ffff_0000_0000 == 0
  {
  }

  /** page_table_empty: no entry of the table is valid. */
  method PageTableEmpty(table: seq<bv64>) returns (empty: bool)
    ensures empty <==> forall i | 0 <= i < |table| :: !EntryValid(table[i])
  {
    var n := 0;
    while n < |table|
      invariant 0 <= n <= |table|
      invariant forall i | 0 <= i < n :: !EntryValid(table[i])
    {
      if EntryValid(table[n]) {
        return false;
      }
      n := n + 1;
    }
    return true;
  }
}
