/** What keeps the root cell out of the memory of the other cells. */
module Isolation {
  import opened Options
  import opened Regions
  import opened CellMemory
  import opened CellBook

  // ---- Disjoint configurations ----

  /** Regions that management operations move: backed by root memory, or loadable. */
  predicate Moves(r: Region) { !r.comm || r.loadable }

  ghost predicate Meet(r: Region, s: Region) { exists p: nat :: Covers(r, p) && Covers(s, p) }

  ghost predicate ApartWithin(regions: seq<Region>) {
    forall i, j | 0 <= i < j < |regions| && Moves(regions[i]) && Moves(regions[j]) :: !Meet(regions[i], regions[j])
  }

  /** Page p can be touched by operations on a cell with these regions. */
  predicate Touches(regions: seq<Region>, p: nat) { Covered(regions, Private, p) || Covered(regions, Loadable, p) }

  ghost predicate ApartFrom(a: seq<Region>, b: seq<Region>) { forall p: nat | Touches(a, p) :: !Touches(b, p) }

  /** No page is in two regions of live cells that are moved. */
  ghost predicate Disjoint(cells: seq<Cell>) {
    && (forall k | 0 <= k < |cells| :: ApartWithin(cells[k].regions))
    && (forall j, k | 0 <= j < |cells| && 0 <= k < |cells| && j != k :: ApartFrom(cells[j].regions, cells[k].regions))
  }

  lemma OneRegion(regions: seq<Region>, a: Kind, b: Kind, p: nat) returns (i: nat)
    requires ApartWithin(regions) && Covered(regions, a, p) && Covered(regions, b, p)
    ensures i < |regions| && Picks(a, regions[i]) && Picks(b, regions[i]) && Covers(regions[i], p)
  {
    CoveredIff(regions, a, p);
    CoveredIff(regions, b, p);
    i :| 0 <= i < |regions| && Picks(a, regions[i]) && Covers(regions[i], p);
    var j :| 0 <= j < |regions| && Picks(b, regions[j]) && Covers(regions[j], p);
    assert Meet(regions[i], regions[j]) && Meet(regions[j], regions[i]);
  }

  // ---- Isolation ----

  /** The loadable regions, for CPUs or for DMA. */
  function LoadableOf(kind: Kind): Kind { if kind == PrivateDma then LoadableDma else Loadable }

  /** The root cell maps a page of the cell's regions of this kind only if the cell and the region are loadable. */
  predicate HiddenPage(cell: Cell, kind: Kind, m: PageMap, p: nat) {
    Covered(cell.regions, kind, p) && p in m ==> cell.loadable && Covered(cell.regions, LoadableOf(kind), p)
  }

  ghost predicate Hidden(cell: Cell, kind: Kind, m: PageMap) { forall p: nat :: HiddenPage(cell, kind, m, p) }

  ghost predicate Isolated(cells: seq<Cell>, kind: Kind, m: PageMap) {
    forall k | 0 <= k < |cells| :: Hidden(cells[k], kind, m)
  }

  // ---- Physical pages ----

  /** The regions stay away from the hypervisor's own pages. */
  ghost predicate Away(regions: seq<Region>, own: set<nat>) { forall p: nat | p in own :: !Touches(regions, p) }

  /** A map leads from pages to themselves or to the hypervisor's own pages. */
  predicate Straight(m: PageMap, own: set<nat>) { forall g | g in m :: m[g].phys == g || m[g].phys in own }

  lemma RootStraight(config: seq<Region>, base: PageMap, m: PageMap, own: set<nat>)
    requires RootOnly(config, base, m) && Straight(base, own)
    ensures Straight(m, own)
  {
    forall g | g in m ensures m[g].phys == g || m[g].phys in own {
      assert Allows(config, g, m[g]) || At(base, g) == Some(m[g]);
    }
  }

  /** A guest page of the root cell that leads to a page of a cell's region: then cell and region are loadable. */
  lemma IsolatedRegion(cells: seq<Cell>, kind: Kind, m: PageMap, own: set<nat>, k: nat, i: nat, g: nat)
    requires Isolated(cells, kind, m) && Disjoint(cells) && (kind == Private || kind == PrivateDma) && Straight(m, own)
    requires k < |cells| && i < |cells[k].regions| && Picks(kind, cells[k].regions[i]) && Away(cells[k].regions, own)
    requires g in m && Covers(cells[k].regions[i], m[g].phys)
    ensures cells[k].loadable && cells[k].regions[i].loadable
  {
    var regions, p := cells[k].regions, m[g].phys;
    CoveredIff(regions, kind, p);
    PrivateTouches(regions, kind, p);
    assert p == g;
    assert Hidden(cells[k], kind, m);
    assert HiddenPage(cells[k], kind, m, p);
    var j := OneRegion(regions, kind, LoadableOf(kind), p);
    assert Meet(regions[i], regions[j]) && Meet(regions[j], regions[i]);
  }

  // ---- The test for a new cell ----

  predicate Overlaps(r: Region, s: Region) {
    r.size > 0 && s.size > 0 && r.phys < s.phys + s.size && s.phys < r.phys + r.size
  }

  lemma MeetIff(r: Region, s: Region)
    ensures Meet(r, s) <==> Overlaps(r, s)
  {
    if Overlaps(r, s) {
      var p := if r.phys < s.phys then s.phys else r.phys;
      assert Covers(r, p) && Covers(s, p);
    }
  }

  /** An administrator's test of regions for a new cell, against the live cells and the hypervisor's pages. */
  predicate MayAdd(cells: seq<Cell>, own: set<nat>, regions: seq<Region>) {
    && (forall i, j | 0 <= i < j < |regions| && Moves(regions[i]) && Moves(regions[j]) ::
          !Overlaps(regions[i], regions[j]))
    && (forall k | 0 <= k < |cells| :: Clear(cells[k].regions, regions))
    && (forall p, i | p in own && 0 <= i < |regions| && Moves(regions[i]) :: !Covers(regions[i], p))
  }

  predicate Clear(a: seq<Region>, b: seq<Region>) {
    forall i, j | 0 <= i < |a| && 0 <= j < |b| && Moves(a[i]) && Moves(b[j]) :: !Overlaps(a[i], b[j])
  }

  lemma TouchesIff(regions: seq<Region>, p: nat)
    ensures Touches(regions, p) <==> exists i :: 0 <= i < |regions| && Moves(regions[i]) && Covers(regions[i], p)
  {
    CoveredIff(regions, Private, p);
    CoveredIff(regions, Loadable, p);
    if i :| 0 <= i < |regions| && Moves(regions[i]) && Covers(regions[i], p) {
      assert Picks(Private, regions[i]) || Picks(Loadable, regions[i]);
    }
  }

  lemma ClearIff(a: seq<Region>, b: seq<Region>)
    ensures Clear(a, b) <==> ApartFrom(a, b)
    ensures Clear(a, b) <==> ApartFrom(b, a)
  {
    forall p: nat | Touches(a, p) && Touches(b, p) ensures !Clear(a, b) {
      TouchesIff(a, p);
      TouchesIff(b, p);
      var i :| 0 <= i < |a| && Moves(a[i]) && Covers(a[i], p);
      var j :| 0 <= j < |b| && Moves(b[j]) && Covers(b[j], p);
      assert Overlaps(a[i], b[j]);
    }
    forall i, j | 0 <= i < |a| && 0 <= j < |b| && Moves(a[i]) && Moves(b[j]) && Overlaps(a[i], b[j])
      ensures exists p: nat :: Touches(a, p) && Touches(b, p)
    {
      MeetIff(a[i], b[j]);
      var p: nat :| Covers(a[i], p) && Covers(b[j], p);
      TouchesIff(a, p);
      TouchesIff(b, p);
    }
  }

  lemma AwayIff(regions: seq<Region>, own: set<nat>)
    ensures Away(regions, own) <==>
            forall p, i | p in own && 0 <= i < |regions| && Moves(regions[i]) :: !Covers(regions[i], p)
  {
    forall p: nat
      ensures Touches(regions, p) <==> exists i :: 0 <= i < |regions| && Moves(regions[i]) && Covers(regions[i], p)
    {
      TouchesIff(regions, p);
    }
  }

  /**
   * The test holds if and only if the live cells are disjoint together with the new one, which spares the own pages.
   */
  lemma MayAddIff(cells: seq<Cell>, own: set<nat>, cell: Cell)
    requires Disjoint(cells)
    ensures MayAdd(cells, own, cell.regions) <==> Disjoint(cells + [cell]) && Away(cell.regions, own)
  {
    hide Touches;
    hide Overlaps;
    hide Clear;
    var now, n := cells + [cell], |cells|;
    AwayIff(cell.regions, own);
    forall i, j | 0 <= i < |cell.regions| && 0 <= j < |cell.regions|
      ensures Meet(cell.regions[i], cell.regions[j]) <==> Overlaps(cell.regions[i], cell.regions[j])
    {
      MeetIff(cell.regions[i], cell.regions[j]);
    }
    assert ApartWithin(now[n].regions) <==> ApartWithin(cell.regions);
    forall k | 0 <= k < n
      ensures Clear(cells[k].regions, cell.regions) <==> ApartFrom(now[k].regions, now[n].regions)
      ensures Clear(cells[k].regions, cell.regions) <==> ApartFrom(now[n].regions, now[k].regions)
    {
      ClearIff(cells[k].regions, cell.regions);
    }
    if Disjoint(now) {
      assert forall k | 0 <= k < n :: ApartFrom(now[k].regions, now[n].regions);
    }
  }

  /** Between the maps only pages of these regions differ. */
  ghost predicate Changes(regions: seq<Region>, before: PageMap, after: PageMap) {
    forall p: nat :: At(after, p) == At(before, p) || Touches(regions, p)
  }

  lemma PrivateTouches(regions: seq<Region>, kind: Kind, p: nat)
    ensures Covered(regions, kind, p) ==> Touches(regions, p)
    ensures kind != Loadable && kind != LoadableDma && Covered(regions, kind, p) ==> Covered(regions, Private, p)
    ensures Covered(regions, LoadableDma, p) ==> Covered(regions, Loadable, p)
  {
    CoveredIff(regions, kind, p);
    CoveredIff(regions, Private, p);
    CoveredIff(regions, Loadable, p);
    CoveredIff(regions, LoadableDma, p);
  }

  lemma HiddenKept(cell: Cell, kind: Kind, regions: seq<Region>, before: PageMap, after: PageMap)
    requires Hidden(cell, kind, before) && ApartFrom(cell.regions, regions) && Changes(regions, before, after)
    ensures Hidden(cell, kind, after)
  {
    forall p: nat ensures HiddenPage(cell, kind, after, p) {
      assert HiddenPage(cell, kind, before, p);
      PrivateTouches(cell.regions, kind, p);
      assert At(after, p) == At(before, p) || Touches(regions, p);
    }
  }

  /** Taking pages hides what was hidden. */
  lemma HiddenTaken(cell: Cell, kind: Kind, regions: seq<Region>, taken: Kind, before: PageMap, after: PageMap)
    requires Hidden(cell, kind, before) && TakesSome(regions, taken, before, after)
    ensures Hidden(cell, kind, after)
  {
    forall p: nat ensures HiddenPage(cell, kind, after, p) {
      assert HiddenPage(cell, kind, before, p);
      assert TakePage(regions, taken, p, At(before, p), At(after, p));
    }
  }

  lemma TakeChanges(regions: seq<Region>, kind: Kind, before: PageMap, after: PageMap)
    requires TakesSome(regions, kind, before, after)
    ensures Changes(regions, before, after)
  {
    forall p: nat ensures At(after, p) == At(before, p) || Touches(regions, p) {
      assert TakePage(regions, kind, p, At(before, p), At(after, p));
      PrivateTouches(regions, kind, p);
    }
  }

  lemma GiveChanges(config: seq<Region>, regions: seq<Region>, kind: Kind, before: PageMap, after: PageMap)
    requires GivesSome(config, regions, kind, before, after)
    ensures Changes(regions, before, after)
  {
    forall p: nat ensures At(after, p) == At(before, p) || Touches(regions, p) {
      assert GivePages(config, regions, kind, p, At(before, p), At(after, p));
      PrivateTouches(regions, kind, p);
    }
  }

  lemma ChangesJoin(regions: seq<Region>, a: PageMap, b: PageMap, c: PageMap)
    requires Changes(regions, a, b) && Changes(regions, b, c)
    ensures Changes(regions, a, c)
  {
    forall p: nat ensures At(c, p) == At(a, p) || Touches(regions, p) {
      assert At(b, p) == At(a, p) || Touches(regions, p);
    }
  }

  // ---- What the operations do to isolation ----

  /** Other cells do not notice. */
  lemma OthersIsolated(cells: seq<Cell>, kind: Kind, regions: seq<Region>, before: PageMap, after: PageMap)
    requires Isolated(cells, kind, before) && Changes(regions, before, after)
    requires forall k | 0 <= k < |cells| :: ApartFrom(cells[k].regions, regions)
    ensures Isolated(cells, kind, after)
  {
    forall k | 0 <= k < |cells| ensures Hidden(cells[k], kind, after) {
      HiddenKept(cells[k], kind, regions, before, after);
    }
  }

  lemma TakenIsolated(cells: seq<Cell>, kind: Kind, regions: seq<Region>, taken: Kind, before: PageMap, after: PageMap)
    requires TakesSome(regions, taken, before, after)
    ensures Isolated(cells, kind, before) ==> Isolated(cells, kind, after)
  {
    if Isolated(cells, kind, before) {
      forall k | 0 <= k < |cells| ensures Hidden(cells[k], kind, after) {
        HiddenTaken(cells[k], kind, regions, taken, before, after);
      }
    }
  }

  /** A new cell that is not loadable, all of whose pages were taken. */
  lemma NewIsolated(cells: seq<Cell>, cell: Cell, kind: Kind, before: PageMap, after: PageMap)
    requires Isolated(cells, kind, before) && TakesAll(cell.regions, kind, before, after)
    ensures Isolated(cells + [cell], kind, after)
  {
    TakeWhole(cell.regions, kind, before, after);
    forall k | 0 <= k < |cells| + 1 ensures Hidden((cells + [cell])[k], kind, after) {
      if k < |cells| {
        HiddenTaken(cells[k], kind, cell.regions, kind, before, after);
      } else {
        forall p: nat ensures HiddenPage(cell, kind, after, p) {
          assert At(after, p) == if Covered(cell.regions, kind, p) then None else At(before, p);
        }
      }
    }
  }

  /** A cell whose loadable pages were all taken need not be loadable any more. */
  lemma StartIsolated(cells: seq<Cell>, k: nat, kind: Kind, before: PageMap, after: PageMap)
    requires Isolated(cells, kind, before) && k < |cells| && TakesAll(cells[k].regions, LoadableOf(kind), before, after)
    ensures Isolated(cells[k := cells[k].(loadable := false)], kind, after)
  {
    TakeWhole(cells[k].regions, LoadableOf(kind), before, after);
    var now := cells[k := cells[k].(loadable := false)];
    forall j | 0 <= j < |now| ensures Hidden(now[j], kind, after) {
      HiddenTaken(cells[j], kind, cells[k].regions, LoadableOf(kind), before, after);
      if j == k {
        forall p: nat ensures HiddenPage(now[k], kind, after, p) {
          assert HiddenPage(cells[k], kind, after, p);
          assert At(after, p) == if Covered(cells[k].regions, LoadableOf(kind), p) then None else At(before, p);
        }
      }
    }
  }

  /** A cell that is made loadable may have its loadable pages given. */
  lemma LoadIsolated(cells: seq<Cell>, k: nat, kind: Kind, config: seq<Region>, before: PageMap, after: PageMap)
    requires Isolated(cells, kind, before) && Disjoint(cells) && k < |cells| && (kind == Private || kind == PrivateDma)
    requires GivesSome(config, cells[k].regions, Loadable, before, after)
    ensures Isolated(cells[k := cells[k].(loadable := true)], kind, after)
  {
    var now, regions := cells[k := cells[k].(loadable := true)], cells[k].regions;
    GiveChanges(config, regions, Loadable, before, after);
    forall j | 0 <= j < |now| ensures Hidden(now[j], kind, after) {
      if j != k {
        HiddenKept(cells[j], kind, regions, before, after);
      } else {
        forall p: nat ensures HiddenPage(now[k], kind, after, p) {
          assert Hidden(cells[k], kind, before);
          assert HiddenPage(cells[k], kind, before, p);
          assert GivePages(config, regions, Loadable, p, At(before, p), At(after, p));
          if Covered(regions, kind, p) && Covered(regions, Loadable, p) {
            var i := OneRegion(regions, kind, Loadable, p);
            CoveredIff(regions, LoadableOf(kind), p);
          }
        }
      }
    }
  }

  // ---- What the root cell may map at all ----

  /** Every mapping of the root cell is one of its configuration, or was there from the start. */
  ghost predicate RootOnly(config: seq<Region>, base: PageMap, m: PageMap) {
    forall p: nat | p in m :: Allows(config, p, m[p]) || At(base, p) == Some(m[p])
  }

  lemma TakeRootOnly(config: seq<Region>, base: PageMap, regions: seq<Region>, kind: Kind, before: PageMap,
                     after: PageMap)
    requires RootOnly(config, base, before) && TakesSome(regions, kind, before, after)
    ensures RootOnly(config, base, after)
  {
    forall p: nat | p in after ensures Allows(config, p, after[p]) || At(base, p) == Some(after[p]) {
      assert TakePage(regions, kind, p, At(before, p), At(after, p));
    }
  }

  lemma GiveRootOnly(config: seq<Region>, base: PageMap, regions: seq<Region>, kind: Kind, before: PageMap,
                     after: PageMap)
    requires RootOnly(config, base, before) && GivesSome(config, regions, kind, before, after)
    ensures RootOnly(config, base, after)
  {
    forall p: nat | p in after ensures Allows(config, p, after[p]) || At(base, p) == Some(after[p]) {
      assert GivePages(config, regions, kind, p, At(before, p), At(after, p));
    }
  }

  // ---- Whole operations on one of the two maps ----

  /** A creation that was rolled back: others stay isolated, and only pages of the regions changed. */
  lemma RolledBack(cells: seq<Cell>, kind: Kind, config: seq<Region>, regions: seq<Region>,
                   m0: PageMap, m1: PageMap, m2: PageMap)
    requires TakesSome(regions, kind, m0, m1) && GivesSome(config, regions, Private, m1, m2)
    requires forall k | 0 <= k < |cells| :: ApartFrom(cells[k].regions, regions)
    ensures Isolated(cells, kind, m0) ==> Isolated(cells, kind, m2)
  {
    RollbackChanges(kind, config, regions, m0, m1, m2);
    if Isolated(cells, kind, m0) {
      OthersIsolated(cells, kind, regions, m0, m2);
    }
  }

  lemma RollbackChanges(kind: Kind, config: seq<Region>, regions: seq<Region>, m0: PageMap, m1: PageMap, m2: PageMap)
    requires TakesSome(regions, kind, m0, m1) && GivesSome(config, regions, Private, m1, m2)
    ensures Changes(regions, m0, m2)
  {
    TakeChanges(regions, kind, m0, m1);
    GiveChanges(config, regions, Private, m1, m2);
    ChangesJoin(regions, m0, m1, m2);
  }

  /** Removing a cell from the list after its memory was given back. */
  lemma GoneIsolated(cells: seq<Cell>, k: nat, kind: Kind, config: seq<Region>, before: PageMap, after: PageMap)
    requires Disjoint(cells) && k < |cells| && GivesSome(config, cells[k].regions, Private, before, after)
    ensures Isolated(cells, kind, before) ==> Isolated(cells[..k] + cells[k + 1..], kind, after)
  {
    GiveChanges(config, cells[k].regions, Private, before, after);
    var now := cells[..k] + cells[k + 1..];
    if Isolated(cells, kind, before) {
      forall j | 0 <= j < |now| ensures Hidden(now[j], kind, after) {
        var i := if j < k then j else j + 1;
        assert now[j] == cells[i];
        HiddenKept(cells[i], kind, cells[k].regions, before, after);
      }
    }
  }

  lemma DisjointWithout(cells: seq<Cell>, k: nat)
    requires Disjoint(cells) && k < |cells|
    ensures Disjoint(cells[..k] + cells[k + 1..])
  {
    var now := cells[..k] + cells[k + 1..];
    forall j | 0 <= j < |now| ensures now[j] == cells[if j < k then j else j + 1] {
    }
    forall i, j | 0 <= i < |now| && 0 <= j < |now| && i != j ensures ApartFrom(now[i].regions, now[j].regions) {
      var x, y := if i < k then i else i + 1, if j < k then j else j + 1;
      assert ApartFrom(cells[x].regions, cells[y].regions);
    }
  }

  /** Only the regions of the cells count. */
  lemma DisjointLike(a: seq<Cell>, b: seq<Cell>)
    requires Disjoint(a) && |a| == |b| && forall k | 0 <= k < |a| :: a[k].regions == b[k].regions
    ensures Disjoint(b)
  {
  }

  // ---- DMA ----

  /**
   * After all of a cell's memory was taken, a page of one of its regions is closed to the root cell's devices if and
   * only if the cell's region has DMA access or the page was closed before: unmapping looks at the cell's flags.
   */
  lemma DmaClosedIff(regions: seq<Region>, before: PageMap, after: PageMap, i: nat, p: nat)
    requires ApartWithin(regions) && TakesAll(regions, PrivateDma, before, after)
    requires i < |regions| && !regions[i].comm && Covers(regions[i], p)
    ensures p !in after <==> regions[i].dma || p !in before
  {
    CoveredIff(regions, PrivateDma, p);
    CoveredIff(regions, Private, p);
    if Covered(regions, PrivateDma, p) {
      var j := OneRegion(regions, Private, PrivateDma, p);
      assert Meet(regions[i], regions[j]) && Meet(regions[j], regions[i]);
    }
    assert At(after, p) == if Covered(regions, PrivateDma, p) then None else At(before, p);
  }

  // ---- Overlapping cells ----

  /** If page p of a cell is given to the root cell with regions of another one, it is loadable there. */
  predicate SharedPage(cell: Cell, regions: seq<Region>, given: Kind, kind: Kind, dma: bool, config: seq<Region>,
                       p: nat)
  {
    Covered(cell.regions, kind, p) && Covered(regions, given, p) && Configured(config, p, dma).Some? ==>
      cell.loadable && Covered(cell.regions, LoadableOf(kind), p)
  }

  lemma GivenPage(cell: Cell, regions: seq<Region>, given: Kind, kind: Kind, dma: bool, config: seq<Region>,
                  before: PageMap, after: PageMap, p: nat)
    requires Hidden(cell, kind, before) && GivesAll(config, regions, given, dma, before, after)
    ensures HiddenPage(cell, kind, after, p) <==> SharedPage(cell, regions, given, kind, dma, config, p)
  {
    assert HiddenPage(cell, kind, before, p);
    assert At(after, p) == if Covered(regions, given, p)
                           then Over(Configured(config, p, dma), At(before, p)) else At(before, p);
  }

  /**
   * The code does not keep cells disjoint. Giving regions to the root cell without failure then leaves cells isolated
   * if and only if every page that the root cell gets and that is also theirs is loadable there.
   */
  lemma GivenIsolatedIff(cells: seq<Cell>, regions: seq<Region>, given: Kind, kind: Kind, dma: bool,
                         config: seq<Region>,
                         before: PageMap, after: PageMap)
    requires Isolated(cells, kind, before) && GivesAll(config, regions, given, dma, before, after)
    ensures Isolated(cells, kind, after) <==>
            forall j, p: nat | 0 <= j < |cells| :: SharedPage(cells[j], regions, given, kind, dma, config, p)
  {
    hide HiddenPage;
    hide SharedPage;
    hide GivesAll;
    forall j, p: nat | 0 <= j < |cells|
      ensures HiddenPage(cells[j], kind, after, p) <==> SharedPage(cells[j], regions, given, kind, dma, config, p)
    {
      assert Hidden(cells[j], kind, before);
      GivenPage(cells[j], regions, given, kind, dma, config, before, after, p);
    }
    if Isolated(cells, kind, after) {
      assert forall j | 0 <= j < |cells| :: Hidden(cells[j], kind, after);
    }
  }

  /** The map of the CPUs, or that of the devices. */
  predicate MapOf(kind: Kind, dma: bool) { kind == if dma then PrivateDma else Private }

  /** Destroying cell k: the condition is about the others. */
  lemma GoneIsolatedIff(cells: seq<Cell>, k: nat, kind: Kind, dma: bool, config: seq<Region>, before: PageMap,
                        after: PageMap)
    requires Isolated(cells, kind, before) && k < |cells| && MapOf(kind, dma)
    requires GivesAll(config, cells[k].regions, Private, dma, before, after)
    ensures Isolated(cells[..k] + cells[k + 1..], kind, after) <==>
            forall j, p: nat | 0 <= j < |cells| && j != k ::
              SharedPage(cells[j], cells[k].regions, Private, kind, dma, config, p)
  {
    hide SharedPage;
    hide GivesAll;
    hide Hidden;
    var now, regions := cells[..k] + cells[k + 1..], cells[k].regions;
    forall i | 0 <= i < |now| ensures Hidden(now[i], kind, before) {
      assert now[i] == cells[if i < k then i else i + 1];
    }
    GivenIsolatedIff(now, regions, Private, kind, dma, config, before, after);
    if forall i, p: nat | 0 <= i < |now| :: SharedPage(now[i], regions, Private, kind, dma, config, p) {
      forall j, p: nat | 0 <= j < |cells| && j != k
        ensures SharedPage(cells[j], regions, Private, kind, dma, config, p)
      {
        assert cells[j] == now[if j < k then j else j - 1];
      }
    } else {
      var i, p: nat :| 0 <= i < |now| && !SharedPage(now[i], regions, Private, kind, dma, config, p);
      var j := if i < k then i else i + 1;
      assert cells[j] == now[i];
    }
  }

  /** Rolling back the creation of a cell with these regions, whatever of them was taken: it is about all cells. */
  lemma RolledBackIff(cells: seq<Cell>, regions: seq<Region>, kind: Kind, dma: bool, config: seq<Region>,
                      before: PageMap, taken: PageMap, after: PageMap)
    requires Isolated(cells, kind, before) && MapOf(kind, dma)
    requires TakesSome(regions, kind, before, taken) && GivesAll(config, regions, Private, dma, taken, after)
    ensures Isolated(cells, kind, after) <==>
            forall j, p: nat | 0 <= j < |cells| :: SharedPage(cells[j], regions, Private, kind, dma, config, p)
  {
    TakenIsolated(cells, kind, regions, kind, before, taken);
    GivenIsolatedIff(cells, regions, Private, kind, dma, config, taken, after);
  }

  /** Making cell k loadable: it is about all cells, this one included, whose own regions may overlap too. */
  lemma LoadIsolatedIff(cells: seq<Cell>, k: nat, kind: Kind, dma: bool, config: seq<Region>, before: PageMap,
                        after: PageMap)
    requires Isolated(cells, kind, before) && k < |cells| && MapOf(kind, dma)
    requires GivesAll(config, cells[k].regions, Loadable, dma, before, after)
    ensures var now := cells[k := cells[k].(loadable := true)];
            Isolated(now, kind, after) <==>
            forall j, p: nat | 0 <= j < |now| :: SharedPage(now[j], cells[k].regions, Loadable, kind, dma, config, p)
  {
    var now := cells[k := cells[k].(loadable := true)];
    forall j | 0 <= j < |now| ensures Hidden(now[j], kind, before) {
      assert Hidden(cells[j], kind, before);
      forall p: nat ensures HiddenPage(now[j], kind, before, p) {
        assert HiddenPage(cells[j], kind, before, p);
      }
    }
    GivenIsolatedIff(now, cells[k].regions, Loadable, kind, dma, config, before, after);
  }
}
