/** Moving the memory of a whole cell between the root cell and the cell, region by region. */
module CellMemory {
  import opened Options
  import opened Regions

  /**
   * The regions an operation is about: those backed by root memory, or the loadable ones; for DMA, those with DMA
   * access.
   */
  datatype Kind = Private | PrivateDma | Loadable | LoadableDma

  predicate Picks(kind: Kind, r: Region) {
    match kind
    case Private => !r.comm
    case PrivateDma => !r.comm && r.dma
    case Loadable => r.loadable
    case LoadableDma => r.loadable && r.dma
  }

  /** Page p lies in a region of the kind. */
  predicate Covered(regions: seq<Region>, kind: Kind, p: nat) {
    regions != [] &&
    var k := |regions| - 1;
    (Picks(kind, regions[k]) && Covers(regions[k], p)) || Covered(regions[..k], kind, p)
  }

  lemma {:induction false} CoveredIff(regions: seq<Region>, kind: Kind, p: nat)
    ensures Covered(regions, kind, p) <==>
            exists i :: 0 <= i < |regions| && Picks(kind, regions[i]) && Covers(regions[i], p)
  {
    if regions != [] {
      var k := |regions| - 1;
      CoveredIff(regions[..k], kind, p);
      if Covered(regions[..k], kind, p) {
        var i :| 0 <= i < k && Picks(kind, regions[..k][i]) && Covers(regions[..k][i], p);
        assert Picks(kind, regions[i]);
      }
      forall i | 0 <= i < k && Picks(kind, regions[i]) && Covers(regions[i], p) ensures Covered(regions[..k], kind, p) {
        assert Picks(kind, regions[..k][i]) && Covers(regions[..k][i], p);
      }
    }
  }

  /** Taking pages away, whatever failed: a page of the regions is as before or gone, another one as before. */
  predicate TakePage(regions: seq<Region>, kind: Kind, p: nat, before: Option<Entry>, after: Option<Entry>) {
    after == before || (Covered(regions, kind, p) && after == None)
  }

  ghost predicate TakesSome(regions: seq<Region>, kind: Kind, before: PageMap, after: PageMap) {
    forall p: nat :: TakePage(regions, kind, p, At(before, p), At(after, p))
  }

  /** Taking all of them. */
  ghost predicate TakesAll(regions: seq<Region>, kind: Kind, before: PageMap, after: PageMap) {
    forall p: nat :: At(after, p) == if Covered(regions, kind, p) then None else At(before, p)
  }

  /** Giving pages back, whatever failed. */
  predicate GivePages(config: seq<Region>, regions: seq<Region>, kind: Kind, p: nat, before: Option<Entry>,
                      after: Option<Entry>)
  {
    after == before || (Covered(regions, kind, p) && (after == None || Allows(config, p, after.value)))
  }

  ghost predicate GivesSome(config: seq<Region>, regions: seq<Region>, kind: Kind, before: PageMap, after: PageMap) {
    forall p: nat :: GivePages(config, regions, kind, p, At(before, p), At(after, p))
  }

  /** Giving all of them: what the root configuration has for the page is restored. */
  ghost predicate GivesAll(config: seq<Region>, regions: seq<Region>, kind: Kind, dma: bool, before: PageMap,
                           after: PageMap)
  {
    forall p: nat :: At(after, p) ==
      if Covered(regions, kind, p) then Over(Configured(config, p, dma), At(before, p)) else At(before, p)
  }

  // ---- One more region ----

  lemma TakeOn(regions: seq<Region>, n: nat, kind: Kind, before: PageMap, mid: PageMap, after: PageMap)
    requires n < |regions| && TakesAll(regions[..n], kind, before, mid)
    requires if Picks(kind, regions[n]) then after == Unmapped(mid, regions[n].phys, regions[n].size) else after == mid
    ensures TakesAll(regions[..n + 1], kind, before, after)
  {
    assert regions[..n + 1][..n] == regions[..n];
    forall p: nat ensures At(after, p) == if Covered(regions[..n + 1], kind, p) then None else At(before, p) {
      UnmappedAt(mid, regions[n].phys, regions[n].size, p);
    }
  }

  /** A region taken in part at the end. */
  lemma TakePart(regions: seq<Region>, n: nat, kind: Kind, before: PageMap, mid: PageMap, after: PageMap)
    requires n < |regions| && TakesAll(regions[..n], kind, before, mid)
    requires if Picks(kind, regions[n])
             then forall p: nat :: UnmapPage(regions[n].(virt := regions[n].phys), p, At(mid, p), At(after, p))
             else after == mid
    ensures TakesSome(regions, kind, before, after)
  {
    forall p: nat ensures TakePage(regions, kind, p, At(before, p), At(after, p)) {
      CoveredIff(regions, kind, p);
      CoveredIff(regions[..n], kind, p);
      if Covered(regions[..n], kind, p) {
        var i :| 0 <= i < n && Picks(kind, regions[..n][i]) && Covers(regions[..n][i], p);
        assert Picks(kind, regions[i]);
      }
      assert Picks(kind, regions[n]) ==> UnmapPage(regions[n].(virt := regions[n].phys), p, At(mid, p), At(after, p));
    }
  }

  lemma TakeWhole(regions: seq<Region>, kind: Kind, before: PageMap, after: PageMap)
    requires TakesAll(regions, kind, before, after)
    ensures TakesSome(regions, kind, before, after)
  {
    forall p: nat ensures TakePage(regions, kind, p, At(before, p), At(after, p)) {
      assert At(after, p) == if Covered(regions, kind, p) then None else At(before, p);
    }
  }

  lemma GiveOn(config: seq<Region>, regions: seq<Region>, n: nat, kind: Kind, dma: bool, before: PageMap,
               mid: PageMap, after: PageMap)
    requires n < |regions| && GivesAll(config, regions[..n], kind, dma, before, mid)
    requires if Picks(kind, regions[n]) then GivenAll(config, regions[n], dma, mid, after) else after == mid
    ensures GivesAll(config, regions[..n + 1], kind, dma, before, after)
  {
    assert regions[..n + 1][..n] == regions[..n];
    forall p: nat ensures At(after, p) == if Covered(regions[..n + 1], kind, p)
                                          then Over(Configured(config, p, dma), At(before, p)) else At(before, p) {
      assert At(mid, p) == if Covered(regions[..n], kind, p)
                           then Over(Configured(config, p, dma), At(before, p)) else At(before, p);
      assert Picks(kind, regions[n]) ==> At(after, p) == Given(config, regions[n], p, dma, At(mid, p));
    }
  }

  lemma GivePart(config: seq<Region>, regions: seq<Region>, n: nat, kind: Kind, before: PageMap, mid: PageMap,
                 after: PageMap)
    requires n < |regions| && GivesSome(config, regions, kind, before, mid) && Picks(kind, regions[n])
    requires forall p: nat :: GivePage(config, regions[n], p, At(mid, p), At(after, p))
    ensures GivesSome(config, regions, kind, before, after)
  {
    forall p: nat ensures GivePages(config, regions, kind, p, At(before, p), At(after, p)) {
      CoveredIff(regions, kind, p);
      assert GivePages(config, regions, kind, p, At(before, p), At(mid, p));
      assert GivePage(config, regions[n], p, At(mid, p), At(after, p));
    }
  }

  // ---- The loops ----

  /** No operation on one of these regions fails. */
  ghost predicate Roomy(mem: RootMemory, regions: seq<Region>) {
    forall i | 0 <= i < |regions| :: mem.Ample(regions[i].size)
  }

  /** The region loop of cell_create; cellMap(n) is what mapping region n into the cell returns. */
  method TakeMemory(mem: RootMemory, regions: seq<Region>, cellMap: nat -> int) returns (err: int)
    requires forall n: nat :: cellMap(n) <= 0
    modifies mem`ops, mem`ept, mem`dma
    ensures err <= 0
    ensures TakesSome(regions, Private, old(mem.ept), mem.ept) && TakesSome(regions, PrivateDma, old(mem.dma), mem.dma)
    ensures err == 0 ==> TakesAll(regions, Private, old(mem.ept), mem.ept)
    ensures err == 0 && mem.vtd ==> TakesAll(regions, PrivateDma, old(mem.dma), mem.dma)
    ensures !mem.vtd ==> mem.dma == old(mem.dma)
    ensures Roomy(mem, regions) && (forall n: nat :: cellMap(n) == 0) ==> err == 0
  {
    hide Covered;
    hide Unmapped;
    ghost var e0, d0 := mem.ept, mem.dma;
    NothingTaken(regions, Private, e0);
    NothingTaken(regions, PrivateDma, d0);
    for n := 0 to |regions|
      invariant TakesAll(regions[..n], Private, e0, mem.ept)
      invariant mem.vtd ==> TakesAll(regions[..n], PrivateDma, d0, mem.dma)
      invariant !mem.vtd ==> mem.dma == d0
    {
      var r := regions[n];
      ghost var e, d := mem.ept, mem.dma;
      err := 0;
      if !r.comm {
        err := mem.UnmapFromRoot(r);
      }
      if err == 0 {
        TakeOn(regions, n, Private, e0, e, mem.ept);
        if mem.vtd {
          TakeOn(regions, n, PrivateDma, d0, d, mem.dma);
        }
        err := cellMap(n);
      }
      if err != 0 {
        TakePart(regions, n, Private, e0, e, mem.ept);
        if mem.vtd {
          TakePart(regions, n, PrivateDma, d0, d, mem.dma);
        }
        return;
      }
    }
    assert regions[..|regions|] == regions;
    TakeWhole(regions, Private, e0, mem.ept);
    if mem.vtd {
      TakeWhole(regions, PrivateDma, d0, mem.dma);
    }
    err := 0;
  }

  /** The region loop of cell_start: loadable regions are taken from the root cell. */
  method TakeLoadable(mem: RootMemory, regions: seq<Region>) returns (err: int)
    modifies mem`ops, mem`ept, mem`dma
    ensures err <= 0 && (Roomy(mem, regions) ==> err == 0)
    ensures TakesSome(regions, Loadable, old(mem.ept), mem.ept)
    ensures TakesSome(regions, LoadableDma, old(mem.dma), mem.dma)
    ensures err == 0 ==> TakesAll(regions, Loadable, old(mem.ept), mem.ept)
    ensures err == 0 && mem.vtd ==> TakesAll(regions, LoadableDma, old(mem.dma), mem.dma)
    ensures !mem.vtd ==> mem.dma == old(mem.dma)
  {
    hide Covered;
    hide Unmapped;
    ghost var e0, d0 := mem.ept, mem.dma;
    NothingTaken(regions, Loadable, e0);
    NothingTaken(regions, LoadableDma, d0);
    for n := 0 to |regions|
      invariant TakesAll(regions[..n], Loadable, e0, mem.ept)
      invariant mem.vtd ==> TakesAll(regions[..n], LoadableDma, d0, mem.dma)
      invariant !mem.vtd ==> mem.dma == d0
    {
      var r := regions[n];
      ghost var e, d := mem.ept, mem.dma;
      if r.loadable {
        err := mem.UnmapFromRoot(r);
        if err != 0 {
          TakePart(regions, n, Loadable, e0, e, mem.ept);
          if mem.vtd {
            TakePart(regions, n, LoadableDma, d0, d, mem.dma);
          }
          return;
        }
      }
      TakeOn(regions, n, Loadable, e0, e, mem.ept);
      if mem.vtd {
        TakeOn(regions, n, LoadableDma, d0, d, mem.dma);
      }
    }
    assert regions[..|regions|] == regions;
    TakeWhole(regions, Loadable, e0, mem.ept);
    if mem.vtd {
      TakeWhole(regions, LoadableDma, d0, mem.dma);
    }
    err := 0;
  }

  /** Region k of the cell is the last one that covers the page and is backed by root memory. */
  ghost predicate LastOf(regions: seq<Region>, p: nat, k: nat) {
    && k < |regions| && !regions[k].comm && Covers(regions[k], p)
    && forall j | k < j < |regions| && !regions[j].comm :: !Covers(regions[j], p)
  }

  /**
   * Every page of the cell's memory has what the last root region says that covers it, unless giving it back failed
   * for that root region and the last region of the cell that covers it.
   */
  ghost predicate GivesBut(config: seq<Region>, regions: seq<Region>, failed: set<(nat, nat)>, dma: bool, m: PageMap) {
    forall p: nat, k: nat, i: nat | LastOf(regions, p, k) && LastSays(config, p, dma, i) && (k, i) !in failed ::
      At(m, p) == Some(Entry(p, config[i].access))
  }

  ghost function Pairs(k: nat, roots: set<nat>): set<(nat, nat)> { set i | i in roots :: (k, i) }

  lemma PairsOf(k: nat, roots: set<nat>)
    ensures forall i :: (k, i) in Pairs(k, roots) <==> i in roots
    ensures Pairs(k, roots) == {} <==> roots == {}
  {
    forall i | i in roots ensures (k, i) in Pairs(k, roots) {
    }
  }

  lemma NoneLeft(config: seq<Region>, regions: seq<Region>, ept: PageMap, dma: PageMap)
    ensures GivesBut(config, regions[..0], {}, false, ept) && GivesBut(config, regions[..0], {}, true, dma)
  {
  }

  lemma ButNext(config: seq<Region>, regions: seq<Region>, n: nat, was: set<(nat, nat)>, failed: set<(nat, nat)>,
                roots: set<nat>, dma: bool, mid: PageMap, after: PageMap)
    requires n < |regions| && !regions[n].comm && (forall i: nat :: (n, i) in Pairs(n, roots) <==> i in roots)
    requires was + Pairs(n, roots) <= failed && GivesBut(config, regions[..n], was, dma, mid)
    requires GivenBut(config, regions[n], roots, dma, after)
    requires forall p: nat :: GivePage(config, regions[n], p, At(mid, p), At(after, p))
    ensures GivesBut(config, regions[..n + 1], failed, dma, after)
  {
    forall p: nat, k: nat, i: nat | LastOf(regions[..n + 1], p, k) && LastSays(config, p, dma, i) && (k, i) !in failed
      ensures At(after, p) == Some(Entry(p, config[i].access))
    {
      if k < n {
        assert regions[..n + 1][n] == regions[n] && LastOf(regions[..n], p, k);
        assert GivePage(config, regions[n], p, At(mid, p), At(after, p));
      }
    }
  }

  lemma ButSkips(config: seq<Region>, regions: seq<Region>, n: nat, failed: set<(nat, nat)>, dma: bool, m: PageMap)
    requires n < |regions| && regions[n].comm
    ensures GivesBut(config, regions[..n], failed, dma, m) ==> GivesBut(config, regions[..n + 1], failed, dma, m)
  {
    if GivesBut(config, regions[..n], failed, dma, m) {
      forall p: nat, k: nat, i: nat | LastOf(regions[..n + 1], p, k) && LastSays(config, p, dma, i) && (k, i) !in failed
        ensures At(m, p) == Some(Entry(p, config[i].access))
      {
        assert LastOf(regions[..n], p, k);
      }
    }
  }

  /** The region loop of cell_destroy_internal: everything goes back, failures are only reported. */
  method GiveMemory(mem: RootMemory, regions: seq<Region>) returns (ghost clean: bool, ghost failed: set<(nat, nat)>)
    requires OneToOne(mem.config)
    modifies mem`ops, mem`ept, mem`dma
    ensures GivesSome(mem.config, regions, Private, old(mem.ept), mem.ept)
    ensures GivesSome(mem.config, regions, Private, old(mem.dma), mem.dma)
    ensures clean ==> GivesAll(mem.config, regions, Private, false, old(mem.ept), mem.ept)
    ensures clean && mem.vtd ==> GivesAll(mem.config, regions, Private, true, old(mem.dma), mem.dma)
    ensures !mem.vtd ==> mem.dma == old(mem.dma)
    ensures (clean <==> failed == {}) && (Roomy(mem, regions) ==> clean)
    ensures GivesBut(mem.config, regions, failed, false, mem.ept)
    ensures mem.vtd ==> GivesBut(mem.config, regions, failed, true, mem.dma)
  {
    hide Covered;
    hide GivesBut;
    hide GivenBut;
    ghost var e0, d0 := mem.ept, mem.dma;
    NothingGiven(mem.config, regions, Private, e0);
    NothingGiven(mem.config, regions, Private, d0);
    clean, failed := true, {};
    NoneLeft(mem.config, regions, mem.ept, mem.dma);
    for n := 0 to |regions|
      invariant (clean <==> failed == {}) && (Roomy(mem, regions) ==> clean)
      invariant GivesBut(mem.config, regions[..n], failed, false, mem.ept)
      invariant mem.vtd ==> GivesBut(mem.config, regions[..n], failed, true, mem.dma)
      invariant GivesSome(mem.config, regions, Private, e0, mem.ept)
      invariant GivesSome(mem.config, regions, Private, d0, mem.dma)
      invariant clean ==> GivesAll(mem.config, regions[..n], Private, false, e0, mem.ept)
      invariant clean && mem.vtd ==> GivesAll(mem.config, regions[..n], Private, true, d0, mem.dma)
      invariant !mem.vtd ==> mem.dma == d0
    {
      var r := regions[n];
      ghost var e, d, was := mem.ept, mem.dma, failed;
      if !r.comm {
        ghost var one, roots;
        var err;
        err, one, roots := mem.RemapToRoot(r, false);
        clean := clean && one;
        failed := failed + Pairs(n, roots);
        PairsOf(n, roots);
        ButNext(mem.config, regions, n, was, failed, roots, false, e, mem.ept);
        if mem.vtd {
          ButNext(mem.config, regions, n, was, failed, roots, true, d, mem.dma);
        }
      } else {
        ButSkips(mem.config, regions, n, failed, false, mem.ept);
        ButSkips(mem.config, regions, n, failed, true, mem.dma);
      }
      if !r.comm {
        GivePart(mem.config, regions, n, Private, e0, e, mem.ept);
        GivePart(mem.config, regions, n, Private, d0, d, mem.dma);
      }
      if clean {
        GiveOn(mem.config, regions, n, Private, false, e0, e, mem.ept);
        if mem.vtd {
          GiveOn(mem.config, regions, n, Private, true, d0, d, mem.dma);
        }
      }
    }
    assert regions[..|regions|] == regions;
  }

  /** The region loop of cell_set_loadable: loadable regions are mapped for the root cell too. */
  method GiveLoadable(mem: RootMemory, regions: seq<Region>) returns (err: int)
    requires OneToOne(mem.config)
    modifies mem`ops, mem`ept, mem`dma
    ensures err <= 0 && (Roomy(mem, regions) ==> err == 0)
    ensures GivesSome(mem.config, regions, Loadable, old(mem.ept), mem.ept)
    ensures GivesSome(mem.config, regions, Loadable, old(mem.dma), mem.dma)
    ensures err == 0 ==> GivesAll(mem.config, regions, Loadable, false, old(mem.ept), mem.ept)
    ensures err == 0 && mem.vtd ==> GivesAll(mem.config, regions, Loadable, true, old(mem.dma), mem.dma)
    ensures !mem.vtd ==> mem.dma == old(mem.dma)
  {
    hide Covered;
    ghost var e0, d0 := mem.ept, mem.dma;
    NothingGiven(mem.config, regions, Loadable, e0);
    NothingGiven(mem.config, regions, Loadable, d0);
    for n := 0 to |regions|
      invariant GivesSome(mem.config, regions, Loadable, e0, mem.ept)
      invariant GivesSome(mem.config, regions, Loadable, d0, mem.dma)
      invariant GivesAll(mem.config, regions[..n], Loadable, false, e0, mem.ept)
      invariant mem.vtd ==> GivesAll(mem.config, regions[..n], Loadable, true, d0, mem.dma)
      invariant !mem.vtd ==> mem.dma == d0
    {
      var r := regions[n];
      ghost var e, d := mem.ept, mem.dma;
      if r.loadable {
        ghost var clean, roots;
        err, clean, roots := mem.RemapToRoot(r, true);
        GivePart(mem.config, regions, n, Loadable, e0, e, mem.ept);
        GivePart(mem.config, regions, n, Loadable, d0, d, mem.dma);
        if err != 0 {
          return;
        }
      }
      GiveOn(mem.config, regions, n, Loadable, false, e0, e, mem.ept);
      if mem.vtd {
        GiveOn(mem.config, regions, n, Loadable, true, d0, d, mem.dma);
      }
    }
    assert regions[..|regions|] == regions;
    err := 0;
  }

  lemma NothingGiven(config: seq<Region>, regions: seq<Region>, kind: Kind, m: PageMap)
    ensures GivesSome(config, regions, kind, m, m)
    ensures GivesAll(config, regions[..0], kind, false, m, m) && GivesAll(config, regions[..0], kind, true, m, m)
  {
  }

  lemma NothingTaken(regions: seq<Region>, kind: Kind, m: PageMap)
    ensures TakesAll(regions[..0], kind, m, m) && TakesSome(regions, kind, m, m)
  {
  }

  // ---- Taking and giving back ----

  /**
   * If everything succeeds, taking a cell's memory and giving it back restores the root cell's CPU mappings exactly on
   * the pages where they were what the configuration says.
   */
  lemma RestoredIff(config: seq<Region>, regions: seq<Region>, before: PageMap, taken: PageMap, after: PageMap, p: nat)
    requires TakesAll(regions, Private, before, taken) && GivesAll(config, regions, Private, false, taken, after)
    ensures At(after, p) == At(before, p) <==>
            !Covered(regions, Private, p) || At(before, p) == Configured(config, p, false)
  {
    assert At(taken, p) == if Covered(regions, Private, p) then None else At(before, p);
  }

  /** The same for DMA, where pages of regions without DMA access were not taken. */
  lemma DmaRestoredIff(config: seq<Region>, regions: seq<Region>, before: PageMap, taken: PageMap, after: PageMap,
                       p: nat)
    requires TakesAll(regions, PrivateDma, before, taken) && GivesAll(config, regions, Private, true, taken, after)
    ensures At(after, p) == At(before, p) <==>
            !Covered(regions, Private, p) || At(before, p) == Configured(config, p, true)
            || (Configured(config, p, true).None? && !Covered(regions, PrivateDma, p))
  {
    assert At(taken, p) == if Covered(regions, PrivateDma, p) then None else At(before, p);
    CoveredIff(regions, PrivateDma, p);
    CoveredIff(regions, Private, p);
  }
}
