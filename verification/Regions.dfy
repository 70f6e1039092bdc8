/**
 * The root cell's memory: which guest-physical pages it may access, for its CPUs and for DMA, and how regions are
 * taken from it and given back. Addresses and sizes are in pages.
 */
module Regions {
  import opened Options

  const ENOMEM: int := 12

  /** A memory region of a configuration: physical and guest address, size, access rights and the other flags. */
  datatype Region = Region(phys: nat, virt: nat, size: nat, access: nat, dma: bool, comm: bool, loadable: bool)

  datatype Entry = Entry(phys: nat, access: nat)

  type PageMap = map<nat, Entry>

  predicate Covers(r: Region, p: nat) { r.phys <= p < r.phys + r.size }

  function At(m: PageMap, p: nat): Option<Entry> { if p in m then Some(m[p]) else None }

  /** The numbers lo .. lo + n. */
  function Range(lo: nat, n: nat): (s: set<nat>)
    ensures forall p: nat :: p in s <==> lo <= p < lo + n
  {
    if n == 0 then {} else Range(lo, n - 1) + {lo + n - 1}
  }

  function Mapped(m: PageMap, virt: nat, phys: nat, n: nat, access: nat): PageMap {
    m + map p: nat | p in Range(virt, n) :: Entry(if p >= virt then phys + (p - virt) else 0, access)
  }

  function Unmapped(m: PageMap, virt: nat, n: nat): PageMap { m - Range(virt, n) }

  lemma MappedAt(m: PageMap, virt: nat, phys: nat, n: nat, access: nat, p: nat)
    ensures At(Mapped(m, virt, phys, n, access), p) ==
            if virt <= p < virt + n then Some(Entry(phys + (p - virt), access)) else At(m, p)
  {
  }

  lemma UnmappedAt(m: PageMap, virt: nat, n: nat, p: nat)
    ensures At(Unmapped(m, virt, n), p) == if virt <= p < virt + n then None else At(m, p)
  {
  }

  // ---- Overlaps ----

  predicate AddressIn(addr: nat, r: Region) { r.phys <= addr < r.phys + r.size }

  /** The overlap that remap_to_root_cell computes for one root region. */
  function Overlap(mem: Region, root: Region): Option<Region> {
    if AddressIn(mem.phys, root) then
      var rest := root.size - (mem.phys - root.phys);
      Some(root.(phys := mem.phys, virt := root.virt + mem.phys - root.phys,
                 size := if rest > mem.size then mem.size else rest))
    else if AddressIn(root.phys, mem) then
      var rest := mem.size - (root.phys - mem.phys);
      Some(root.(size := if rest > root.size then root.size else rest))
    else None
  }

  /** It is exactly the intersection, with the root region's addresses and flags. */
  lemma OverlapExact(mem: Region, root: Region, p: nat)
    ensures (Overlap(mem, root).Some? && Covers(Overlap(mem, root).value, p)) <==> Covers(mem, p) && Covers(root, p)
    ensures Overlap(mem, root).Some? ==>
              var o := Overlap(mem, root).value;
              o.access == root.access && o.dma == root.dma && o.virt - o.phys == root.virt - root.phys
  {
  }

  // ---- What the configuration says about a page ----

  predicate OneToOne(config: seq<Region>) { forall i | 0 <= i < |config| :: config[i].virt == config[i].phys }

  /**
   * The mapping of page p after the regions were mapped in order: the last one wins. With dma, only regions for DMA
   * count.
   */
  function Configured(config: seq<Region>, p: nat, dma: bool): Option<Entry> {
    if config == [] then None
    else
      var r := config[|config| - 1];
      if Covers(r, p) && (dma ==> r.dma) then Some(Entry(p, r.access)) else Configured(config[..|config| - 1], p, dma)
  }

  /** Region i covers the page and counts, and no later one does. */
  ghost predicate LastSays(config: seq<Region>, p: nat, dma: bool, i: nat) {
    && i < |config| && Covers(config[i], p) && (dma ==> config[i].dma)
    && forall j | i < j < |config| :: !(Covers(config[j], p) && (dma ==> config[j].dma))
  }

  /** The last region that covers the page and counts decides; without one there is no mapping. */
  lemma {:induction false} ConfiguredIs(config: seq<Region>, p: nat, dma: bool)
    ensures match Configured(config, p, dma)
            case Some(e) => exists i: nat :: LastSays(config, p, dma, i) && e == Entry(p, config[i].access)
            case None => forall i | 0 <= i < |config| :: !(Covers(config[i], p) && (dma ==> config[i].dma))
  {
    if config != [] {
      var k := |config| - 1;
      ConfiguredIs(config[..k], p, dma);
      if Covers(config[k], p) && (dma ==> config[k].dma) {
        assert LastSays(config, p, dma, k);
      } else if Configured(config[..k], p, dma).Some? {
        var i: nat :| LastSays(config[..k], p, dma, i)
                      && Configured(config[..k], p, dma).value == Entry(p, config[..k][i].access);
        assert LastSays(config, p, dma, i);
      }
    }
  }

  /** Some region of the configuration gives page p this mapping. */
  predicate Allows(config: seq<Region>, p: nat, e: Entry) {
    exists i :: 0 <= i < |config| && Covers(config[i], p) && e == Entry(p, config[i].access)
  }

  lemma {:induction false} ConfiguredAllowed(config: seq<Region>, p: nat, dma: bool)
    ensures Configured(config, p, dma).Some? ==> Allows(config, p, Configured(config, p, dma).value)
  {
    if config != [] {
      var k := |config| - 1;
      ConfiguredAllowed(config[..k], p, dma);
      if Configured(config, p, dma) == Configured(config[..k], p, dma) && Configured(config, p, dma).Some? {
        var i :| 0 <= i < k && Covers(config[..k][i], p)
                 && Configured(config, p, dma).value == Entry(p, config[..k][i].access);
        assert config[i] == config[..k][i];
      } else if Configured(config, p, dma).Some? {
        assert Covers(config[k], p);
      }
    }
  }

  function Over(a: Option<Entry>, b: Option<Entry>): Option<Entry> { if a.Some? then a else b }

  // ---- What operations do to a page ----

  /** After mapping part of a region, a page in it is as before, unmapped, or mapped as the region says. */
  predicate MapPage(r: Region, p: nat, before: Option<Entry>, after: Option<Entry>) {
    if r.virt <= p < r.virt + r.size then
      after == before || after == None || after == Some(Entry(r.phys + (p - r.virt), r.access))
    else after == before
  }

  predicate UnmapPage(r: Region, p: nat, before: Option<Entry>, after: Option<Entry>) {
    if r.virt <= p < r.virt + r.size then after == before || after == None else after == before
  }

  /** What is left of page p after regions of a cell were given back, whatever failed. */
  predicate GivePage(config: seq<Region>, mem: Region, p: nat, before: Option<Entry>, after: Option<Entry>) {
    if Covers(mem, p) then after == before || after == None || Allows(config, p, after.value) else after == before
  }

  /** What page p is after regions were given back without failure. */
  function Given(config: seq<Region>, mem: Region, p: nat, dma: bool, before: Option<Entry>): Option<Entry> {
    if Covers(mem, p) then Over(Configured(config, p, dma), before) else before
  }

  /** Mapping stopped in the first half, or in the second one, and then a part of the first was taken back. */
  ghost predicate MapStopped(r: Region, ept0: PageMap, dma0: PageMap, ept: PageMap, dma: PageMap) {
    || (dma == dma0 && exists k: nat :: k < r.size && ept == Mapped(ept0, r.virt, r.phys, k, r.access))
    || ((exists k: nat :: k < r.size && dma == Mapped(dma0, r.virt, r.phys, k, r.access))
        && exists k: nat :: k <= r.size && ept == Unmapped(Mapped(ept0, r.virt, r.phys, r.size, r.access), r.virt, k))
  }

  /** Unmapping stopped in the first half, or in the second one. */
  ghost predicate UnmapStopped(r: Region, isDma: bool, ept0: PageMap, dma0: PageMap, ept: PageMap, dma: PageMap) {
    || (ept == ept0 && exists k: nat :: k < r.size && dma == Unmapped(dma0, r.virt, k))
    || (dma == (if isDma then Unmapped(dma0, r.virt, r.size) else dma0)
        && exists k: nat :: k < r.size && ept == Unmapped(ept0, r.virt, k))
  }

  class RootMemory {
    const config: seq<Region>
    /** Whether there is VT-d hardware. */
    const vtd: bool
    /** How many pages the k-th page table operation gets through before it fails; enough pages means no failure. */
    const fate: nat -> nat
    var ops: nat
    var ept: PageMap
    var dma: PageMap

    constructor (config: seq<Region>, vtd: bool, fate: nat -> nat, ept: PageMap, dma: PageMap)
      ensures this.config == config && this.vtd == vtd && this.fate == fate && this.ept == ept && this.dma == dma
    {
      this.config := config;
      this.vtd := vtd;
      this.fate := fate;
      ops := 0;
      this.ept := ept;
      this.dma := dma;
    }

    /** Operations on n pages do not fail. */
    ghost predicate Ample(n: nat) { forall k: nat :: fate(k) >= n }

    method Reach(n: nat) returns (k: nat)
      modifies this`ops
      ensures k <= n && (Ample(n) ==> k == n)
    {
      k := if fate(ops) < n then fate(ops) else n;
      ops := ops + 1;
    }

    method VmxMap(r: Region) returns (err: int)
      modifies this`ops, this`ept
      ensures err <= 0 && (Ample(r.size) ==> err == 0)
      ensures forall p: nat :: MapPage(r, p, At(old(ept), p), At(ept, p))
      ensures err == 0 ==> ept == Mapped(old(ept), r.virt, r.phys, r.size, r.access)
      ensures err != 0 ==> exists k: nat :: k < r.size && ept == Mapped(old(ept), r.virt, r.phys, k, r.access)
    {
      var k := Reach(r.size);
      forall p: nat ensures MapPage(r, p, At(ept, p), At(Mapped(ept, r.virt, r.phys, k, r.access), p)) {
        MappedAt(ept, r.virt, r.phys, k, r.access, p);
      }
      ept := Mapped(ept, r.virt, r.phys, k, r.access);
      err := if k < r.size then -ENOMEM else 0;
    }

    method VmxUnmap(r: Region) returns (err: int)
      modifies this`ops, this`ept
      ensures err <= 0 && (Ample(r.size) ==> err == 0)
      ensures forall p: nat :: UnmapPage(r, p, At(old(ept), p), At(ept, p))
      ensures err == 0 ==> ept == Unmapped(old(ept), r.virt, r.size)
      ensures err != 0 ==> exists k: nat :: k < r.size && ept == Unmapped(old(ept), r.virt, k)
    {
      var k := Reach(r.size);
      forall p: nat ensures UnmapPage(r, p, At(ept, p), At(Unmapped(ept, r.virt, k), p)) {
        UnmappedAt(ept, r.virt, k, p);
      }
      ept := Unmapped(ept, r.virt, k);
      err := if k < r.size then -ENOMEM else 0;
    }

    method VtdMap(r: Region) returns (err: int)
      modifies this`ops, this`dma
      ensures err <= 0 && (Ample(r.size) ==> err == 0)
      ensures forall p: nat :: MapPage(r, p, At(old(dma), p), At(dma, p))
      ensures !vtd || !r.dma ==> err == 0 && dma == old(dma)
      ensures err == 0 && vtd && r.dma ==> dma == Mapped(old(dma), r.virt, r.phys, r.size, r.access)
      ensures err != 0 ==> exists k: nat :: k < r.size && dma == Mapped(old(dma), r.virt, r.phys, k, r.access)
    {
      if !vtd || !r.dma {
        return 0;
      }
      var k := Reach(r.size);
      forall p: nat ensures MapPage(r, p, At(dma, p), At(Mapped(dma, r.virt, r.phys, k, r.access), p)) {
        MappedAt(dma, r.virt, r.phys, k, r.access, p);
      }
      dma := Mapped(dma, r.virt, r.phys, k, r.access);
      err := if k < r.size then -ENOMEM else 0;
    }

    method VtdUnmap(r: Region) returns (err: int)
      modifies this`ops, this`dma
      ensures err <= 0 && (Ample(r.size) ==> err == 0)
      ensures forall p: nat :: UnmapPage(r, p, At(old(dma), p), At(dma, p))
      ensures !vtd || !r.dma ==> err == 0 && dma == old(dma)
      ensures err == 0 && vtd && r.dma ==> dma == Unmapped(old(dma), r.virt, r.size)
      ensures err != 0 ==> exists k: nat :: k < r.size && dma == Unmapped(old(dma), r.virt, k)
    {
      if !vtd || !r.dma {
        return 0;
      }
      var k := Reach(r.size);
      forall p: nat ensures UnmapPage(r, p, At(dma, p), At(Unmapped(dma, r.virt, k), p)) {
        UnmappedAt(dma, r.virt, k, p);
      }
      dma := Unmapped(dma, r.virt, k);
      err := if k < r.size then -ENOMEM else 0;
    }

    /** arch_map_memory_region for the root cell; a failure of the DMA half takes the CPU half back. */
    method ArchMap(r: Region) returns (err: int)
      modifies this`ops, this`ept, this`dma
      ensures err <= 0 && (Ample(r.size) ==> err == 0)
      ensures forall p: nat :: MapPage(r, p, At(old(ept), p), At(ept, p))
      ensures forall p: nat :: MapPage(r, p, At(old(dma), p), At(dma, p))
      ensures !vtd || !r.dma ==> dma == old(dma)
      ensures err == 0 ==> ept == Mapped(old(ept), r.virt, r.phys, r.size, r.access)
      ensures err == 0 && vtd && r.dma ==> dma == Mapped(old(dma), r.virt, r.phys, r.size, r.access)
      ensures err != 0 ==> MapStopped(r, old(ept), old(dma), ept, dma)
    {
      err := VmxMap(r);
      if err != 0 {
        return;
      }
      err := VtdMap(r);
      if err != 0 {
        ghost var mid := ept;
        var ignored := VmxUnmap(r);
        forall p: nat ensures MapPage(r, p, At(old(ept), p), At(ept, p)) {
          assert MapPage(r, p, At(old(ept), p), At(mid, p)) && UnmapPage(r, p, At(mid, p), At(ept, p));
        }
      }
    }

    /** arch_unmap_memory_region for the root cell */
    method ArchUnmap(r: Region) returns (err: int)
      modifies this`ops, this`ept, this`dma
      ensures err <= 0 && (Ample(r.size) ==> err == 0)
      ensures forall p: nat :: UnmapPage(r, p, At(old(ept), p), At(ept, p))
      ensures forall p: nat :: UnmapPage(r, p, At(old(dma), p), At(dma, p))
      ensures !vtd || !r.dma ==> dma == old(dma)
      ensures err == 0 ==> ept == Unmapped(old(ept), r.virt, r.size)
      ensures err == 0 && vtd && r.dma ==> dma == Unmapped(old(dma), r.virt, r.size)
      ensures err != 0 ==> UnmapStopped(r, vtd && r.dma, old(ept), old(dma), ept, dma)
    {
      err := VtdUnmap(r);
      if err != 0 {
        return;
      }
      err := VmxUnmap(r);
    }

    /** unmap_from_root_cell: the root cell's addresses are the physical ones. */
    method UnmapFromRoot(mem: Region) returns (err: int)
      modifies this`ops, this`ept, this`dma
      ensures err <= 0 && (Ample(mem.size) ==> err == 0)
      ensures forall p: nat :: UnmapPage(mem.(virt := mem.phys), p, At(old(ept), p), At(ept, p))
      ensures forall p: nat :: UnmapPage(mem.(virt := mem.phys), p, At(old(dma), p), At(dma, p))
      ensures !vtd || !mem.dma ==> dma == old(dma)
      ensures err == 0 ==> ept == Unmapped(old(ept), mem.phys, mem.size)
      ensures err == 0 && vtd && mem.dma ==> dma == Unmapped(old(dma), mem.phys, mem.size)
    {
      err := ArchUnmap(mem.(virt := mem.phys));
    }

    /** The loop of init_late: the root cell's regions in order; a page has what its last region says. */
    method MapConfig() returns (err: int)
      requires OneToOne(config)
      modifies this`ops, this`ept, this`dma
      ensures err == 0 ==> forall p: nat :: At(ept, p) == Over(Configured(config, p, false), At(old(ept), p))
      ensures err == 0 && vtd ==> forall p: nat :: At(dma, p) == Over(Configured(config, p, true), At(old(dma), p))
      ensures (forall n | 0 <= n < |config| :: Ample(config[n].size)) ==> err == 0
    {
      err := 0;
      assert config[..0] == [];
      for n := 0 to |config|
        invariant forall p: nat :: At(ept, p) == Over(Configured(config[..n], p, false), At(old(ept), p))
        invariant vtd ==> forall p: nat :: At(dma, p) == Over(Configured(config[..n], p, true), At(old(dma), p))
        invariant err == 0
      {
        ghost var e, d := ept, dma;
        var r := config[n];
        err := ArchMap(r);
        if err != 0 {
          return;
        }
        assert config[..n + 1][..n] == config[..n];
        forall p: nat ensures At(ept, p) == Over(Configured(config[..n + 1], p, false), At(old(ept), p)) {
          MappedAt(e, r.virt, r.phys, r.size, r.access, p);
        }
        forall p: nat | vtd ensures At(dma, p) == Over(Configured(config[..n + 1], p, true), At(old(dma), p)) {
          MappedAt(d, r.virt, r.phys, r.size, r.access, p);
        }
      }
      assert config[..|config|] == config;
    }

    /**
     * remap_to_root_cell: the parts of the region that belong to root regions are mapped for the root cell again, in
     * the order of its configuration. `failed` are the root regions for which it failed; `clean` says that there are
     * none. Unless it aborts, a page gets what the last root region says that covers it, if that one has not failed.
     */
    method RemapToRoot(mem: Region, abortOnError: bool) returns (err: int, ghost clean: bool, ghost failed: set<nat>)
      requires OneToOne(config)
      modifies this`ops, this`ept, this`dma
      ensures err <= 0
      ensures forall p: nat :: GivePage(config, mem, p, At(old(ept), p), At(ept, p))
      ensures forall p: nat :: GivePage(config, mem, p, At(old(dma), p), At(dma, p))
      ensures (abortOnError ==> (clean <==> err == 0)) && (clean <==> failed == {}) && (Ample(mem.size) ==> clean)
      ensures clean || !abortOnError ==> GivenBut(config, mem, failed, false, ept)
      ensures (clean || !abortOnError) && vtd ==> GivenBut(config, mem, failed, true, dma)
      ensures clean ==> GivenAll(config, mem, false, old(ept), ept)
      ensures clean && vtd ==> GivenAll(config, mem, true, old(dma), dma)
      ensures !vtd ==> dma == old(dma)
    {
      hide LastSays;
      hide GivenBut;
      err, clean, failed := 0, true, {};
      assert config[..0] == [];
      NothingGivenYet(config, mem, ept, dma);
      for n := 0 to |config|
        invariant err <= 0 && (clean <==> failed == {}) && (Ample(mem.size) ==> clean)
        invariant GivenBut(config[..n], mem, failed, false, ept)
        invariant vtd ==> GivenBut(config[..n], mem, failed, true, dma)
        invariant forall p: nat :: GivePage(config, mem, p, At(old(ept), p), At(ept, p))
        invariant forall p: nat :: GivePage(config, mem, p, At(old(dma), p), At(dma, p))
        invariant abortOnError ==> err == 0 && clean
        invariant clean ==> err == 0 && GivenAll(config[..n], mem, false, old(ept), ept)
        invariant clean && vtd ==> GivenAll(config[..n], mem, true, old(dma), dma)
        invariant !vtd ==> dma == old(dma)
      {
        var overlap := Overlap(mem, config[n]);
        ghost var e, d, was := ept, dma, failed;
        if overlap.Some? {
          err := ArchMap(overlap.value);
          GivesOn(config, mem, n, old(ept), e, ept);
          GivesOn(config, mem, n, old(dma), d, dma);
          if err != 0 {
            clean, failed := false, failed + {n};
            if abortOnError {
              return;
            }
          }
        }
        if clean {
          GivenOn(config, mem, n, false, old(ept), e, ept);
          if vtd {
            GivenOn(config, mem, n, true, old(dma), d, dma);
          }
        }
        ButOn(config, mem, n, was, failed, false, e, ept);
        if vtd {
          ButOn(config, mem, n, was, failed, true, d, dma);
        }
      }
      assert config[..|config|] == config;
    }
  }

  ghost predicate GivenAll(config: seq<Region>, mem: Region, dma: bool, before: PageMap, after: PageMap) {
    forall p: nat :: At(after, p) == Given(config, mem, p, dma, At(before, p))
  }

  /** Every page of the region has what the last root region says that covers it, if that one is not among these. */
  ghost predicate GivenBut(config: seq<Region>, mem: Region, failed: set<nat>, dma: bool, m: PageMap) {
    forall p: nat, i: nat | Covers(mem, p) && LastSays(config, p, dma, i) && i !in failed ::
      At(m, p) == Some(Entry(p, config[i].access))
  }

  lemma NothingGivenYet(config: seq<Region>, mem: Region, ept: PageMap, dma: PageMap)
    ensures GivenBut(config[..0], mem, {}, false, ept) && GivenBut(config[..0], mem, {}, true, dma)
  {
  }

  /** One more root region, which failed, or was mapped as far as it overlaps and counts. */
  lemma ButOn(config: seq<Region>, mem: Region, n: nat, was: set<nat>, failed: set<nat>, dma: bool, mid: PageMap,
              after: PageMap)
    requires n < |config| && OneToOne(config) && was <= failed && GivenBut(config[..n], mem, was, dma, mid)
    requires var o := Overlap(mem, config[n]);
             if o.None? || (dma && !config[n].dma) then after == mid
             else if n in failed then forall p: nat :: MapPage(o.value, p, At(mid, p), At(after, p))
             else after == Mapped(mid, o.value.virt, o.value.phys, o.value.size, o.value.access)
    ensures GivenBut(config[..n + 1], mem, failed, dma, after)
  {
    var o := Overlap(mem, config[n]);
    forall p: nat, i: nat | Covers(mem, p) && LastSays(config[..n + 1], p, dma, i) && i !in failed
      ensures At(after, p) == Some(Entry(p, config[..n + 1][i].access))
    {
      OverlapExact(mem, config[n], p);
      if o.Some? {
        MappedAt(mid, o.value.virt, o.value.phys, o.value.size, o.value.access, p);
        if n in failed && (dma ==> config[n].dma) {
          assert MapPage(o.value, p, At(mid, p), At(after, p));
        }
      }
      if i < n {
        assert config[..n + 1][n] == config[n] && config[..n + 1][i] == config[..n][i];
        assert LastSays(config[..n], p, dma, i);
      }
    }
  }

  /** One more root region mapped, wholly or in part. */
  lemma GivesOn(config: seq<Region>, mem: Region, n: nat, before: PageMap, mid: PageMap, after: PageMap)
    requires n < |config| && OneToOne(config) && Overlap(mem, config[n]).Some?
    requires forall p: nat :: GivePage(config, mem, p, At(before, p), At(mid, p))
    requires forall p: nat :: MapPage(Overlap(mem, config[n]).value, p, At(mid, p), At(after, p))
    ensures forall p: nat :: GivePage(config, mem, p, At(before, p), At(after, p))
  {
    forall p: nat ensures GivePage(config, mem, p, At(before, p), At(after, p)) {
      var o := Overlap(mem, config[n]).value;
      OverlapExact(mem, config[n], p);
      assert GivePage(config, mem, p, At(before, p), At(mid, p));
      assert MapPage(o, p, At(mid, p), At(after, p));
      if Covers(o, p) {
        assert Covers(config[n], p);
      }
    }
  }

  /** One more root region mapped as a whole, or one that does not overlap or does not count. */
  lemma GivenOn(config: seq<Region>, mem: Region, n: nat, dma: bool, before: PageMap, mid: PageMap, after: PageMap)
    requires n < |config| && OneToOne(config) && GivenAll(config[..n], mem, dma, before, mid)
    requires var o := Overlap(mem, config[n]);
             after == if o.Some? && (dma ==> config[n].dma)
                      then Mapped(mid, o.value.virt, o.value.phys, o.value.size, o.value.access) else mid
    ensures GivenAll(config[..n + 1], mem, dma, before, after)
  {
    forall p: nat ensures At(after, p) == Given(config[..n + 1], mem, p, dma, At(before, p)) {
      OverlapExact(mem, config[n], p);
      var o := Overlap(mem, config[n]);
      if o.Some? {
        MappedAt(mid, o.value.virt, o.value.phys, o.value.size, o.value.access, p);
      }
      assert At(mid, p) == Given(config[..n], mem, p, dma, At(before, p));
      assert config[..n + 1][..n] == config[..n];
    }
  }
}
