/** Page tables in the pool, changed in place: translate, split, map and unmap. */
module Paging {
  import opened Options
  import opened PageTree
  import opened PageRanges
  import opened PageSteps
  import opened PageOps
  import opened PageClean
  import opened PageRounds
  import opened PageMaps
  import opened PageOver
  import opened PageFresh
  import opened PageCreate
  import opened Pool

  const ENOMEM: int := 12

  /** Where to start a walk: the geometry, the depth of the table in it, and the table. */
  datatype Structs = Structs(g: Geometry, depth: nat, table: nat)

  lemma BlankUnique(s: Table, t: Table)
    requires Blank(s) && Blank(t)
    ensures s == t
  {
  }

  class PageTables {
    const pool: PagePool
    var mem: seq<Table>

    constructor (pages: nat)
      ensures Valid() && fresh(pool) && fresh(pool.bitmap) && pool.pages == pages
      ensures pool.Used() == {} && forall f | 0 <= f < |mem| :: Blank(mem[f])
    {
      var p := new PagePool(pages);
      pool := p;
      mem := seq(64 * p.bitmap.Length, _ => seq(ENTRIES, _ => Absent));
    }

    ghost predicate Valid()
      reads this, pool, pool.bitmap
    {
      pool.Valid() && |mem| == 64 * pool.bitmap.Length
    }

    ghost function S(at: map<Path, nat>): State
      reads this, pool.bitmap
    {
      State(mem, pool.Used(), at)
    }

    /** A tree of the pool, and the place b in it where the given structures start. */
    ghost predicate Ready(st: Structs, b: Path, at: map<Path, nat>)
      reads this, pool, pool.bitmap
    {
      Valid() && Good(st.g, S(at)) && IsPath(b, |b|) && b in at && st.table == at[b] && st.depth == |b|
    }

    /** The same, but for an entry in a free page of the pool; c is the state without it. */
    ghost predicate ReadyBut(st: Structs, b: Path, at: map<Path, nat>, c: State, dirt: Option<Dirt>)
      reads this, pool, pool.bitmap
    {
      && Valid() && Soiled(st.g, S(at), c, dirt) && (dirt.Some? ==> dirt.value.f < pool.Limit())
      && IsPath(b, |b|) && b in at && st.table == at[b] && st.depth == |b|
    }

    /** page_map_virt2phys: the walk over the tables. */
    method Virt2Phys(st: Structs, v: nat, ghost at: map<Path, nat>) returns (r: Option<Mapping>)
      requires Ready(st, [], at)
      ensures r == Look(S(at), At(st.g, [], v))
    {
      hide At;
      hide Good;
      hide OnWalk;
      hide TableAt;
      hide EntryAt;
      hide Look;
      hide Index;
      WalkStart(st.g, S(at), [], v);
      var d, pt := st.depth, st.table;
      while true
        invariant Spot(st.g, S(at), [], v, d) && TableAt(st.g, S(at), [], v, d) == pt
        decreases st.g.levels - d
      {
        WalkEntry(st.g, S(at), [], v, d);
        match mem[pt][Index(st.g, v, d)] {
          case Absent =>
            WalkEnd(st.g, S(at), [], v, d);
            return None;
          case Page(pfn, flags) =>
            WalkEnd(st.g, S(at), [], v, d);
            return Some(Mapping(pfn + v % Pow(st.g.levels - 1 - d), flags));
          case Next(f) =>
            pt, d := f, d + 1;
        }
      }
    }

    /** No page is left that page_alloc could find. */
    ghost predicate Full()
      reads this, pool, pool.bitmap
    {
      forall p: nat | p < pool.Limit() :: p in pool.Used()
    }

    /** page_alloc of a page table: the lowest free page, and none only if there is none. */
    method AllocTable() returns (f: Option<nat>)
      requires Valid()
      modifies pool`usedPages, pool.bitmap
      ensures Valid()
      ensures f.None? ==> pool.Used() == old(pool.Used()) && Full()
      ensures f.Some? ==> f.value < |mem| && f.value !in old(pool.Used()) && pool.Used() == old(pool.Used()) + {f.value}
      ensures f.Some? ==> f.value < pool.Limit() && forall p: nat | p < f.value :: p in old(pool.Used())
    {
      hide PagePool.Used;
      f := pool.Alloc(1);
      if f.Some? {
        assert Run(f.value, 1) == {f.value};
        forall p: nat | p < f.value ensures p in old(pool.Used()) {
          OnePage(old(pool.Used()), pool.Limit(), p);
        }
      } else {
        forall p: nat | p < pool.Limit() ensures p in pool.Used() {
          assert !FreeRun(old(pool.Used()), pool.Limit(), p, Wanted(1));
          OnePage(old(pool.Used()), pool.Limit(), p);
        }
      }
    }

    /** page_free of a page table, which scrubs it. */
    method FreeTable(f: nat)
      requires Valid() && f < |mem| && f in pool.Used() && Blank(mem[f])
      modifies this`mem, pool`usedPages, pool.bitmap
      ensures Valid() && mem == old(mem) && pool.Used() == old(pool.Used()) - {f}
    {
      hide PagePool.Used;
      mem := mem[f := seq(ENTRIES, _ => Absent)];
      BlankUnique(mem[f], old(mem)[f]);
      assert mem == old(mem);
      assert Run(f, 1) == {f};
      pool.Free(Some(f), 1);
    }

    /** The way up of page_map_destroy: clear entries, release tables that this leaves empty. */
    method ClearUp(g: Geometry, v: nat, d: nat, depth: nat, pts: seq<nat>, ghost b: Path, ghost at: map<Path, nat>)
      returns (ghost at1: map<Path, nat>)
      requires Valid() && Good(g, S(at)) && depth == |b| && Spot(g, S(at), b, v, d) && Chain(g, S(at), b, v, d, pts)
      requires !EntryAt(g, S(at), b, v, d).Next?
      modifies this`mem, pool`usedPages, pool.bitmap
      ensures Valid() && Cleared(g, old(S(at)), S(at1), b, At(g, b, v), d) && Tight(g, S(at1), b, At(g, b, v))
    {
      hide At;
      hide Good;
      hide Cleared;
      hide Tight;
      hide Index;
      hide PagePool.Used;
      hide PagePool.Valid;
      ghost var P, s0 := At(g, b, v), S(at);
      at1 := at;
      PendingStart(g, s0, b, P, d);
      var k := d;
      while true
        invariant depth <= k <= d && Valid()
        invariant Pending(g, s0, S(at1), b, P, d, k) && Shrunk(s0, S(at1))
        decreases k
      {
        ChainTable(g, s0, S(at1), b, v, d, k, pts);
        IndexAt(g, b, v, k);
        ghost var s := S(at1);
        ghost var s1 := Written(s, P, k, Absent);
        var t, i := pts[k - depth], Index(g, v, k);
        mem := mem[t := mem[t][i := Absent]];
        assert S(at1) == s1;
        if k == depth || !Blank(mem[t]) {
          PendingEnd(g, s0, s, s1, b, P, d, k);
          return;
        }
        PendingUsed(g, s0, s, s1, b, P, d, k);
        FreeTable(t);
        at1 := at1 - {P[..k]};
        PendingDrop(g, s0, s, s1, S(at1), b, P, d, k);
        k := k - 1;
      }
    }

    // ---- Splitting ----

    /**
     * split_hugepage: a table entry is left alone; a 2 MiB page becomes a table of 4 KiB pages, or nothing changes
     * if there is no page for the table.
     */
    method SplitHuge(g: Geometry, pt: nat, d: nat, v: nat, ghost b: Path, ghost at: map<Path, nat>,
                     ghost c: State, ghost dirt: Option<Dirt>)
      returns (err: int, ghost at1: map<Path, nat>)
      requires Valid() && Soiled(g, S(at), c, dirt) && IsPath(b, |b|) && Spot(g, c, b, v, d)
      requires pt == TableAt(g, c, b, v, d) && d + 1 < g.levels && !EntryAt(g, c, b, v, d).Absent?
      requires dirt.Some? ==> EntryAt(g, c, b, v, d).Next? && dirt.value.f != pt
      modifies this`mem, pool`usedPages, pool.bitmap
      ensures Valid()
      ensures EntryAt(g, c, b, v, d).Next? ==> err == 0 && at1 == at && S(at1) == old(S(at))
      ensures EntryAt(g, c, b, v, d).Page? ==>
                if err == 0 then HasBig(g, b) && SplitDone(g, old(S(at)), S(at1), b, v)
                else err == -ENOMEM && S(at1) == old(S(at)) && Full()
      decreases g.levels - d - 1, 10
    {
      hide At;
      hide Good;
      hide Index;
      hide SplitDone;
      hide Created;
      hide RangeStep;
      hide OnWalk;
      hide PagePool.Used;
      hide PagePool.Valid;
      at1 := at;
      SpotFacts(g, c, b, v, d);
      WalkEntry(g, c, b, v, d);
      SoilElsewhere(c, dirt, pt);
      ghost var P, s := At(g, b, v), S(at);
      var i := Index(g, v, d);
      match mem[pt][i] {
        case Next(_) =>
          return 0, at;
        case Page(pfn, flags) =>
          var size := g.PageSize(d);
          var phys := (pfn + v % size) % BELOW_4G;
          phys := phys - phys % size;
          var f := AllocTable();
          if f.None? {
            return -ENOMEM, at;
          }
          IndexAt(g, b, v, d);
          mem := mem[pt := mem[pt][i := Next(f.value)]];
          at1 := at[P[..d + 1] := f.value];
          ghost var s' := S(at1);
          SplitBegin(g, s, s', b, v, d, f.value);
          SplitMask(pfn, v % size);
          ghost var k;
          err, at1, k := Create(Structs(g, d + 1, f.value), phys, size, 0, flags, P[..d + 1], at1);
          SplitFill(g, s, s', S(at1), b, v, pfn, flags);
      }
    }

    // ---- Unmapping ----

    /** The way down of page_map_destroy: to a hole, to a page that is not larger than the rest of the range. */
    method WalkDown(st: Structs, v: nat, n: nat, ghost b: Path, ghost at: map<Path, nat>)
      returns (err: int, d: nat, pts: seq<nat>, ghost at1: map<Path, nat>)
      requires Ready(st, b, at) && n > 0 && |b| < st.g.levels
      modifies this`mem, pool`usedPages, pool.bitmap
      ensures Valid()
      ensures err != 0 ==> err == -ENOMEM && S(at1) == old(S(at)) && Full() && NeedsSplit(st.g, old(S(at)), b, v, n)
      ensures err == 0 ==> Presplit(st.g, old(S(at)), S(at1), b, v)
      ensures err == 0 ==> Descended(st.g, S(at1), S(at1), b, v, n, d) && Chain(st.g, S(at1), b, v, d, pts)
      ensures err == 0 && !NeedsSplit(st.g, old(S(at)), b, v, n) ==> S(at1) == old(S(at))
      decreases st.g.levels - st.depth, 5
    {
      hide At;
      hide Good;
      hide OnWalk;
      hide TableAt;
      hide EntryAt;
      hide Index;
      hide SplitDone;
      hide Descended;
      hide Calm;
      hide Chain;
      hide PagePool.Used;
      hide PagePool.Valid;
      ghost var s0 := S(at);
      err, d, pts, at1 := 0, st.depth, [st.table], at;
      WalkStart(st.g, s0, b, v);
      ChainStart(st.g, s0, b, v, pts);
      AtIsPath(st.g, b, v);
      while true
        invariant Valid() && st.depth <= d < st.g.levels && |pts| == d - st.depth + 1
        invariant S(at1) == s0
                  || (d == st.g.levels - 1 && n < ENTRIES && HasBig(st.g, b) && SplitDone(st.g, s0, S(at1), b, v)
                      && BigSlot(st.g, s0, At(st.g, b, v)).Page?)
        invariant Good(st.g, S(at1)) && Spot(st.g, S(at1), b, v, d) && Chain(st.g, S(at1), b, v, d, pts)
        decreases st.g.levels - d
      {
        var pt, i := pts[|pts| - 1], Index(st.g, v, d);
        WalkEntry(st.g, S(at1), b, v, d);
        ChainLast(st.g, S(at1), b, v, d, pts);
        if mem[pt][i].Absent? {
          break;
        }
        if mem[pt][i].Page? {
          if st.g.PageSize(d) > n {
            BigHere(st.g, s0, b, v, d);
            err, at1 := SplitHuge(st.g, pt, d, v, b, at1, S(at1), None);
            if err != 0 {
              return;
            }
            AfterSplit(st.g, s0, S(at1), b, v, pts);
            WalkEntry(st.g, S(at1), b, v, d);
          } else {
            break;
          }
        }
        ChainMore(st.g, S(at1), b, v, d, pts);
        pts, d := pts + [mem[pt][i].frame], d + 1;
      }
      SpotRooted(st.g, S(at1), b, v, d);
      DownDone(st.g, S(at1), b, v, n, d);
    }

    /**
     * One round of page_map_destroy: a split if a 2 MiB page is larger than the rest, then exactly what its entry
     * covers is unmapped. Below 4 GiB the split does not show.
     */
    method UnmapRound(st: Structs, v: nat, n: nat, ghost b: Path, ghost at: map<Path, nat>)
      returns (err: int, step: nat, ghost at1: map<Path, nat>)
      requires Ready(st, b, at) && n > 0 && |b| < st.g.levels
      modifies this`mem, pool`usedPages, pool.bitmap
      ensures Valid()
      ensures err != 0 ==> err == -ENOMEM && S(at1) == old(S(at)) && Full() && NeedsSplit(st.g, old(S(at)), b, v, n)
      ensures err == 0 ==>
                && Good(st.g, S(at1)) && [] in at1 && b in at && b in at1 && at1[b] == at[b] && step > 0
                && SplitRound(st.g, old(S(at)), S(at1), b, v, n, step) && Tight(st.g, S(at1), b, At(st.g, b, v))
      ensures err == 0 && (n < ENTRIES ==> Splittable(st.g, old(S(at)), b, v)) ==>
                Round(st.g, old(S(at)), S(at1), b, v, n, step)
      ensures err == 0 && !NeedsSplit(st.g, old(S(at)), b, v, n) ==> Shrunk(old(S(at)), S(at1))
      decreases st.g.levels - st.depth, 6
    {
      hide At;
      hide Good;
      hide Chain;
      hide EntryAt;
      hide Cleared;
      hide Round;
      hide Tight;
      hide Spot;
      hide PagePool.Used;
      hide PagePool.Valid;
      step := 0;
      ghost var s0 := S(at);
      var d: nat, pts: seq<nat>;
      err, d, pts, at1 := WalkDown(st, v, n, b, at);
      if err != 0 {
        return;
      }
      ghost var s := S(at1);
      DescendedFacts(st.g, s, s, b, v, n, d);
      NoneNeeded(st.g, s, b, v, n, d);
      step := if st.g.PageSize(d) > 0 then st.g.PageSize(d) else 1;
      at1 := ClearUp(st.g, v, d, st.depth, pts, b, at1);
      ClearedFacts(st.g, s, S(at1), b, At(st.g, b, v), d);
      RoundDone(st.g, s, s, S(at1), b, v, n, d);
      PresplitRound(st.g, s0, s, S(at1), b, v, n, step);
    }

    /**
     * page_map_destroy on any range is a chain of rounds; it fails only if a split finds no page. Outside the range
     * only pages of 2 MiB pages that it hits can change. On a clean range exactly the range is unmapped on success,
     * exactly a prefix of it on failure; and without pages to split it never fails and never adds a table.
     */
    method Destroy(st: Structs, v: nat, n: nat, ghost b: Path, ghost at: map<Path, nat>, ghost split: bool)
      returns (err: int, ghost at1: map<Path, nat>, ghost ss: seq<State>, ghost vs: seq<nat>)
      requires Ready(st, b, at) && Fits(st.g, b, v, n)
      modifies this`mem, pool`usedPages, pool.bitmap
      ensures Ready(st, b, at1)
      ensures |ss| == |vs| > 0 && Rounds(st.g, ss, vs, b, v, n) && ss[0] == old(S(at)) && ss[|ss| - 1] == S(at1)
      ensures if err == 0 then vs[|vs| - 1] >= v + n else err == -ENOMEM && Full() && vs[|vs| - 1] < v + n
      ensures Worked(st.g, old(S(at)), S(at1), b, v, n)
      ensures Clean(st.g, old(S(at)), b, v, n, split) ==>
                && (err == 0 ==> Unmapped(st.g, old(S(at)), S(at1), b, v, n))
                && (err != 0 ==> split && exists k: nat :: k < n && Unmapped(st.g, old(S(at)), S(at1), b, v, k))
                && (!split ==> Shrunk(old(S(at)), S(at1)))
                && (n > 0 && err == 0 ==> TightIn(st.g, S(at1), b, v, n))
      decreases st.g.levels - st.depth, 7
    {
      hide At;
      hide Good;
      hide Clean;
      hide Unmapped;
      hide RangeStep;
      hide Round;
      hide SplitRound;
      hide TightIn;
      hide Tight;
      hide UnmapInv;
      hide Rounds;
      hide Worked;
      hide PagePool.Used;
      hide PagePool.Valid;
      ghost var s0 := S(at);
      ghost var clean := Clean(st.g, s0, b, v, n, split);
      at1, err := at, 0;
      ss, vs := [s0], [v];
      RoundsStart(st.g, s0, b, v, n);
      UnmapStart(st.g, s0, b, v, n, split);
      var virt, size := v, n;
      while size > 0
        invariant v <= virt && 0 <= size && virt + size == v + n && Ready(st, b, at1) && err == 0
        invariant |ss| == |vs| > 0 && Rounds(st.g, ss, vs, b, v, n)
        invariant ss[0] == s0 && ss[|ss| - 1] == S(at1) && vs[|vs| - 1] == virt
        invariant clean ==> UnmapInv(st.g, s0, S(at1), b, v, n, virt - v, split)
        decreases size
      {
        ghost var s := S(at1);
        if clean {
          UnmapHere(st.g, s0, s, b, v, n, virt - v, split);
        }
        var step;
        err, step, at1 := UnmapRound(st, virt, size, b, at1);
        if err != 0 {
          assert S(at1) == s;
          RoundsWork(st.g, ss, vs, b, v, n);
          return;
        }
        RoundsMore(st.g, ss, vs, b, v, n, S(at1), step);
        ss, vs := ss + [S(at1)], vs + [virt + step];
        if clean {
          UnmapStep(st.g, s0, s, S(at1), b, v, n, virt - v, step, split);
        }
        if step > size {
          if clean {
            UnmapEnd(st.g, s0, S(at1), b, v, n, split);
          }
          RoundsWork(st.g, ss, vs, b, v, n);
          return;
        }
        virt, size := virt + step, size - step;
      }
      if clean {
        UnmapEnd(st.g, s0, S(at1), b, v, n, split);
      }
      RoundsWork(st.g, ss, vs, b, v, n);
    }

    // ---- Mapping ----

    /**
     * The way down of page_map_create: to the entry for the page size to be used, adding tables, splitting pages. h is
     * the new state without the dirt; if the dirty page was to become the last table, it has.
     */
    method MapDown(st: Structs, v: nat, n: nat, pfn: nat, ghost b: Path, ghost at: map<Path, nat>,
                   ghost c: State, ghost dirt: Option<Dirt>)
      returns (err: int, d: nat, pt: nat, ghost mid: State, ghost h: State)
      requires ReadyBut(st, b, at, c, dirt) && n > 0 && |b| < st.g.levels
      requires dirt.Some? ==>
                 TakesBlock(st.g, b, v, n, pfn) && NextTable(c, At(st.g, b, v), st.g.levels - 2, dirt.value.f)
      modifies this`mem, pool`usedPages, pool.bitmap
      ensures Valid() && S(h.at) == Soil(h, dirt)
      ensures Presplit(st.g, c, mid, b, v) && Calm(st.g, mid, h, b, At(st.g, b, v))
      ensures TakesBlock(st.g, b, v, n, pfn) || err != 0 ==> mid == c
      ensures err != 0 ==> err == -ENOMEM && Full() && dirt.None?
      ensures err == 0 && !TakesBlock(st.g, b, v, n, pfn) && HasBig(st.g, b) && mid == c ==>
                !BigSlot(st.g, c, At(st.g, b, v)).Page?
      ensures err == 0 ==> Spot(st.g, h, b, v, d) && pt == TableAt(st.g, h, b, v, d)
                           && d == st.g.levels - if TakesBlock(st.g, b, v, n, pfn) then 2 else 1
      ensures err == 0 && TakesBlock(st.g, b, v, n, pfn) ==>
                Grown(c, h, At(st.g, b, v), d) && (At(st.g, b, v)[..d] !in c.at ==> pt < pool.Limit())
      ensures dirt.Some? ==> pt == dirt.value.f && pt < |h.mem| && Blank(h.mem[pt])
      ensures |b| + 1 == st.g.levels ==> err == 0 && h == c
      decreases st.g.levels - st.depth, 5
    {
      hide At;
      hide Good;
      hide OnWalk;
      hide EntryAt;
      hide TableAt;
      hide Index;
      hide SplitDone;
      hide Calm;
      hide Grown;
      hide NextTable;
      hide Soil;
      hide Soiled;
      hide DirtAhead;
      hide Departs;
      hide Descending;
      hide Presplit;
      hide Hung;
      hide BigSlot;
      hide PagePool.Used;
      hide PagePool.Valid;
      ghost var P, takes := At(st.g, b, v), TakesBlock(st.g, b, v, n, pfn);
      DepartsNow(st.g, S(at), c, b, v, dirt, takes);
      DescendStart(st.g, c, b, v, dirt, takes);
      err, d, pt, mid, h := 0, st.depth, st.table, c, c;
      while !(st.g.PageSize(d) > 0 && st.g.PageSize(d) <= n
              && v % st.g.PageSize(d) == 0 && pfn % st.g.PageSize(d) == 0)
        invariant Valid() && st.depth <= d <= st.g.levels - (if takes then 2 else 1) && err == 0
        invariant S(h.at) == Soil(h, dirt) && Descending(st.g, c, mid, h, b, v, d, pt, dirt, takes)
        invariant takes && P[..d] !in c.at ==> pt < pool.Limit()
        decreases st.g.levels - d
      {
        ghost var s := h;
        var i := Index(st.g, v, d);
        DescendRead(st.g, c, mid, s, b, v, d, pt, dirt, takes);
        DescendEnd(st.g, c, mid, s, b, v, d, pt, dirt, takes);
        if !mem[pt][i].Absent? {
          ghost var e, at1 := mem[pt][i], h.at;
          err, at1 := SplitHuge(st.g, pt, d, v, b, h.at, h, dirt);
          if err != 0 {
            return;
          }
          if e.Page? {
            h := S(at1);
            mid := h;
            SplitSize(st.g, s, h, b, v);
            DescendSplit(st.g, c, c, s, h, b, v, d, pt, dirt, takes);
          } else {
            DescendNext(st.g, c, mid, s, b, v, d, pt, dirt, takes);
          }
          pt := mem[pt][i].frame;
        } else {
          var f := AllocTable();
          if f.None? {
            assert S(h.at) == Soil(h, dirt);
            err := -ENOMEM;
            return;
          }
          SpotFacts(st.g, s, b, v, d);
          mem := mem[pt := mem[pt][i := Next(f.value)]];
          h := Hung(s, P, d, f.value);
          DescendHang(st.g, c, mid, s, h, b, v, d, pt, f.value, dirt, takes);
          pt := f.value;
        }
        d := d + 1;
      }
      DescendEnd(st.g, c, mid, h, b, v, d, pt, dirt, takes);
      DirtEnd(st.g, h, d, pt, dirt);
    }

    /**
     * One round of page_map_create. A 4 KiB page is mapped, after the split of a 2 MiB page in its place. A present
     * 2 MiB page is mapped exactly if and only if its table holds another entry or is the root; otherwise releasing
     * the old mapping also releases the table, and the entry is written into a free page.
     */
    method MapRound(st: Structs, pfn: nat, n: nat, v: nat, flags: nat, ghost b: Path, ghost at: map<Path, nat>,
                    ghost c: State, ghost dirt: Option<Dirt>, ghost u: nat)
      returns (err: int, step: nat, ghost at1: map<Path, nat>, ghost gone: State, ghost lost: Dirt)
      requires ReadyBut(st, b, at, c, dirt) && n > 0 && Fits(st.g, b, v, n)
      requires dirt.Some? ==> TakesBlock(st.g, b, v, n, pfn) && Returns(st.g, c, b, v, u, dirt.value)
      modifies this`mem, pool`usedPages, pool.bitmap
      ensures Valid() && [] in at1
      ensures err != 0 ==> err == -ENOMEM && Full() && dirt.None? && Calm(st.g, c, S(at1), b, At(st.g, b, v))
      ensures err == 0 ==> step == if TakesBlock(st.g, b, v, n, pfn) then ENTRIES else 1
      ensures err == 0 && !TakesBlock(st.g, b, v, n, pfn) ==>
                && Step(st.g, c, S(at1), b, At(st.g, b, v)) && NoNewBig(st.g, c, S(at1))
                && CreatedOver(st.g, c, S(at1), b, v, 1, pfn, flags)
                && At(st.g, b, v)[..st.g.levels - 1] in at1
      ensures dirt.None? && err == 0 && TakesBlock(st.g, b, v, n, pfn) ==>
                if flags % 2 == 0 || Anchored(st.g, c, b, v)
                then RangeStep(st.g, c, S(at1), b, v, ENTRIES)
                     && Created(st.g, c, S(at1), b, v, ENTRIES, pfn, flags)
                     && BigSlot(st.g, S(at1), At(st.g, b, v)) == Terminal(pfn, flags)
                else Lost(st.g, c, S(at1), b, v) && Owing(st.g, c, S(at1), b, v, pfn, flags, gone, lost)
                     && (Fresh(st.g, c, b, v) ==> lost.f < pool.Limit())
      ensures dirt.Some? ==>
                && RangeStep(st.g, c, gone, b, u, ENTRIES)
                && Created(st.g, c, gone, b, u, ENTRIES, dirt.value.e.pfn, dirt.value.e.flags)
                && RangeStep(st.g, gone, S(at1), b, v, ENTRIES)
                && Created(st.g, gone, S(at1), b, v, ENTRIES, pfn, flags)
      ensures |b| + 1 == st.g.levels ==> err == 0 && at1 == at
      decreases st.g.levels - st.depth, 8
    {
      hide At;
      hide Good;
      hide OnWalk;
      hide EntryAt;
      hide Index;
      hide Calm;
      hide Step;
      hide RangeStep;
      hide Created;
      hide CreatedOver;
      hide Unmapped;
      hide Tight;
      hide Anchored;
      hide Lost;
      hide Clean;
      hide Shrunk;
      hide BigSlot;
      hide Grown;
      hide NextTable;
      hide Owing;
      hide Fresh;
      hide PagePool.Used;
      hide PagePool.Valid;
      step, gone, lost := 0, c, Dirt(0, 0, Absent);
      var d: nat, pt: nat;
      ghost var mid, h;
      ReturnsFacts(st.g, c, b, v, u, dirt);
      err, d, pt, mid, h := MapDown(st, v, n, pfn, b, at, c, dirt);
      at1 := h.at;
      CalmFacts(st.g, mid, h, b, At(st.g, b, v));
      PresplitFacts(st.g, c, mid, b, v);
      if err != 0 {
        return;
      }
      ghost var s := S(at1);
      if dirt.Some? {
        BackOnWalk(st.g, c, h, s, b, v, u, dirt.value);
        gone := s;
      }
      step := st.g.PageSize(d);
      SpotFacts(st.g, s, b, v, d);
      WalkEntry(st.g, s, b, v, d);
      IndexAt(st.g, b, v, d);
      if step > 1 {
        BlockClean(st.g, s, b, v);
        ghost var e: int, ss, vs;
        e, at1, ss, vs := Destroy(st, v, step, b, at1, false);
        ghost var s2 := S(at1);
        ghost var w := TightPage(st.g, s2, b, v, step);
        WorkedFacts(st.g, s, s2, b, v, step);
        BlockTable(st.g, s, s2, b, v, d);
        mem := mem[pt := mem[pt][Index(st.g, v, d) := Terminal(pfn, flags)]];
        BlockRound(st.g, gone, s, s2, S(at1), b, v, w, pt, pfn, flags);
        if dirt.None? && flags % 2 == 1 && !Anchored(st.g, c, b, v) {
          gone, lost := s2, Dirt(pt, At(st.g, b, v)[d], Page(pfn, flags));
          OwingRound(st.g, c, s, s2, S(at1), b, v, w, lost, pfn, flags);
          FreshMissing(st.g, c, b, v);
        }
      } else {
        mem := mem[pt := mem[pt][Index(st.g, v, d) := Terminal(pfn, flags)]];
        PageRoundOver(st.g, c, mid, s, S(at1), b, v, pfn, flags);
      }
    }

    /**
     * page_map_create: the first k pages of the range map to consecutive pages, all of them on success; without
     * memory for a table, it stops. Outside them only pages of 2 MiB pages that had to be split can change, and if
     * those lie below 4 GiB, nothing does.
     */
    method Create(st: Structs, pfn: nat, n: nat, v: nat, flags: nat, ghost b: Path, ghost at: map<Path, nat>)
      returns (err: int, ghost at1: map<Path, nat>, ghost k: nat)
      requires Ready(st, b, at) && Fits(st.g, b, v, n) && AnchorOk(st.g, S(at), b, v, n, pfn, flags)
      modifies this`mem, pool`usedPages, pool.bitmap
      ensures Ready(st, b, at1) && Worked(st.g, old(S(at)), S(at1), b, v, n)
      ensures if err == 0 then k == n && BlocksInside(st.g, S(at1), b, v, n) else err == -ENOMEM && Full() && k < n
      ensures CreatedOver(st.g, old(S(at)), S(at1), b, v, k, pfn, flags)
      ensures MapOk(st.g, old(S(at)), b, v, n, pfn, flags) ==> Created(st.g, old(S(at)), S(at1), b, v, k, pfn, flags)
      ensures |b| + 1 == st.g.levels ==> err == 0 && at1 == at
      decreases st.g.levels - st.depth, 9
    {
      hide At;
      hide Good;
      hide Framed;
      hide Kept;
      hide Calm;
      hide Step;
      hide Created;
      hide CreatedOver;
      hide Anchored;
      hide Fresh;
      hide Lost;
      hide Owing;
      hide Returns;
      hide Worked;
      hide MapOk;
      hide AnchorOk;
      hide MapInv;
      hide BlocksInside;
      hide NewBigInside;
      hide NoNewBig;
      hide BigSlot;
      hide PagePool.Used;
      hide PagePool.Valid;
      ghost var s0, exact := S(at), MapOk(st.g, S(at), b, v, n, pfn, flags);
      ghost var c, dirt: Option<Dirt>, u: nat := s0, None, 0;
      at1, err, k := at, 0, 0;
      MapInvStart(st.g, s0, b, v, pfn, flags, exact);
      var phys, virt, size := pfn, v, n;
      while size > 0
        invariant v <= virt && 0 <= size && virt + size == v + n && phys == pfn + (virt - v) && k <= virt - v
        invariant ReadyBut(st, b, at1, c, dirt) && err == 0
        invariant dirt.None? ==> k == virt - v && c == S(at1) && MapInv(st.g, s0, c, b, v, k, pfn, flags, exact)
        invariant dirt.Some? ==>
                    && MapOwed(st.g, s0, c, b, v, k, pfn, flags, exact, dirt.value) && u == v + k && virt == u + ENTRIES
                    && TakesBlock(st.g, b, virt, size, phys) && Returns(st.g, c, b, virt, u, dirt.value)
        invariant |b| + 1 == st.g.levels ==> at1 == at
        decreases size
      {
        if dirt.None? {
          MapOkHere(st.g, s0, c, b, v, k, n, pfn, flags, exact);
        }
        var step;
        ghost var s, was := c, dirt;
        ghost var gone, lost;
        err, step, at1, gone, lost := MapRound(st, phys, size, virt, flags, b, at1, c, dirt, u);
        if err != 0 {
          MapInvStop(st.g, s0, s, S(at1), b, v, k, n, pfn, flags, exact);
          MapWorks(st.g, s0, S(at1), b, v, k, n, pfn, flags);
          return;
        }
        if was.Some? {
          MapOwedPaid(st.g, s0, s, gone, b, v, k, n, pfn, flags, exact, was.value);
          MapInvBlock(st.g, s0, gone, S(at1), b, v, k + ENTRIES, n, pfn, flags, exact);
          k, dirt, c := k + 2 * ENTRIES, None, S(at1);
        } else if !TakesBlock(st.g, b, virt, size, phys) {
          MapInvPage(st.g, s0, s, S(at1), b, v, k, n, pfn, flags, exact);
          k, c := k + 1, S(at1);
        } else if flags % 2 == 0 || Anchored(st.g, s, b, virt) {
          MapInvBlock(st.g, s0, s, S(at1), b, v, k, n, pfn, flags, exact);
          k, c := k + ENTRIES, S(at1);
        } else {
          OwedNow(st.g, s0, s, S(at1), b, v, k, n, pfn, flags, exact, gone, lost);
          c, dirt, u := gone, Some(lost), virt;
        }
        phys, virt, size := phys + step, virt + step, size - step;
        if dirt.None? {
          MapInvFacts(st.g, s0, c, b, v, k, pfn, flags, exact);
        }
      }
      MapInvFacts(st.g, s0, S(at1), b, v, n, pfn, flags, exact);
      MapWorks(st.g, s0, S(at1), b, v, n, n, pfn, flags);
    }
  }
}
