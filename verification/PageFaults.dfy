/** Where the loops over 2 MiB entries are not exact: the exact condition for a round, and runs that show it. */
module PageFaults {
  import opened Options
  import opened Counting
  import opened PageTree
  import opened PageRanges
  import opened PageSteps
  import opened PageOps
  import opened PageClean
  import opened PageRounds
  import opened PageMaps
  import opened PageOver
  import opened PageFresh
  import opened PageCreate
  import opened Paging
  import PageRuns
  import Pool

  // ---- A round over a 2 MiB entry ----

  function Least(a: nat, b: nat): nat { if a < b then a else b }

  /** The pages behind the block of v that a round of 512 pages from v on steps over are not mapped. */
  ghost predicate NothingBehind(g: Geometry, s: State, b: Path, v: nat, m: nat)
    requires |b| <= g.levels
  {
    forall w: nat | BlockStart(v) + ENTRIES <= w < v + m :: Look(s, At(g, b, w)) == None
  }

  /** A hole with nothing behind it is stepped over exactly. */
  lemma HoleRound(g: Geometry, s0: State, s1: State, b: Path, v: nat, n: nat, m: nat)
    requires HasBig(g, b) && Fits(g, b, v, n) && Round(g, s0, s1, b, v, n, ENTRIES) && m <= n && m <= ENTRIES
    requires BigSlot(g, s0, At(g, b, v)).Absent? && NothingBehind(g, s0, b, v, m)
    ensures Unmapped(g, s0, s1, b, v, m)
  {
    hide Shape;
    hide Framed;
    hide KeptBeside;
    hide Pow;
    hide Lookup;
    AtIsPath(g, b, v);
    var P := At(g, b, v);
    forall w: nat | v <= w < v + m ensures Look(s1, At(g, b, w)) == None {
      AtIsPath(g, b, w);
      SameBlock(g, b, v, w);
    }
    forall Q | IsPath(Q, g.levels) && !Within(g, b, v, m, Q) ensures Look(s1, Q) == Look(s0, Q) {
      if P[..g.levels - 1] <= Q {
        HoleBelow(g, s0, P, Q);
      }
    }
  }

  /** Off its boundary, a 2 MiB page is unmapped together with pages before the range. */
  lemma PageRoundLoses(g: Geometry, s0: State, s1: State, b: Path, v: nat, n: nat, m: nat)
    requires HasBig(g, b) && Fits(g, b, v, n) && Round(g, s0, s1, b, v, n, ENTRIES) && m <= n
    requires v % ENTRIES != 0 && BigSlot(g, s0, At(g, b, v)).Page?
    ensures !Unmapped(g, s0, s1, b, v, m)
  {
    hide Framed;
    hide KeptBeside;
    hide Pow;
    hide Shape;
    var w := BlockStart(v);
    AtIsPath(g, b, v);
    AtIsPath(g, b, w);
    SameBlock(g, b, v, w);
    UnderBigPage(g, s0, At(g, b, v));
    WithinOne(g, b, v, w, m);
    assert Look(s0, At(g, b, w)).Some? && Look(s1, At(g, b, w)) == None;
  }

  /** Off block boundaries a page mapped behind the block is stepped over. */
  lemma RoundSkips(g: Geometry, s0: State, s1: State, b: Path, v: nat, n: nat, m: nat)
    requires HasBig(g, b) && Fits(g, b, v, n) && Round(g, s0, s1, b, v, n, ENTRIES) && m <= n
    requires !NothingBehind(g, s0, b, v, m)
    ensures !Unmapped(g, s0, s1, b, v, m)
  {
    hide Framed;
    hide KeptBeside;
    hide Pow;
    hide Shape;
    hide Lookup;
    var w: nat :| BlockStart(v) + ENTRIES <= w < v + m && Look(s0, At(g, b, w)) != None;
    AtIsPath(g, b, v);
    AtIsPath(g, b, w);
    SameBlock(g, b, v, w);
    assert Look(s1, At(g, b, w)) == Look(s0, At(g, b, w));
  }

  /**
   * A round over a 2 MiB entry is exact on the pages of the range that it steps over if and only if it starts at the
   * block, or the entry is a hole and nothing is mapped behind the block.
   */
  lemma RoundExactIff(g: Geometry, s0: State, s1: State, b: Path, v: nat, n: nat)
    requires HasBig(g, b) && Fits(g, b, v, n) && Round(g, s0, s1, b, v, n, ENTRIES)
    ensures Unmapped(g, s0, s1, b, v, Least(n, ENTRIES)) <==>
            || v % ENTRIES == 0
            || (BigSlot(g, s0, At(g, b, v)).Absent? && NothingBehind(g, s0, b, v, Least(n, ENTRIES)))
  {
    hide At;
    hide Step;
    hide Pow;
    hide Unmapped;
    var m := Least(n, ENTRIES);
    if BigSlot(g, s0, At(g, b, v)).Absent? && NothingBehind(g, s0, b, v, m) {
      HoleRound(g, s0, s1, b, v, n, m);
    } else if v % ENTRIES == 0 {
      if n >= ENTRIES {
        RoundUnmaps(g, s0, s1, b, v, n, ENTRIES);
      } else {
        HoleRound(g, s0, s1, b, v, n, m);
      }
    } else if BigSlot(g, s0, At(g, b, v)).Page? {
      PageRoundLoses(g, s0, s1, b, v, n, m);
    } else {
      RoundSkips(g, s0, s1, b, v, n, m);
    }
  }

  /**
   * Unmapping part of a 2 MiB page redirects its other pages, if and only if it lies at or above 4 GiB: they lead to
   * the address without its upper half.
   */
  lemma NeighbourMovesIff(g: Geometry, s0: State, s1: State, b: Path, v: nat, n: nat, w: nat)
    requires Fits(g, b, v, n) && n > 0 && NeedsSplit(g, s0, b, v, n) && SplitRound(g, s0, s1, b, v, n, 1)
    requires w < Pow(g.levels - |b|) && w != v && w / ENTRIES == v / ENTRIES
    ensures var e := BigSlot(g, s0, At(g, b, v));
            && Look(s1, At(g, b, w)) == Some(Mapping(e.pfn % BELOW_4G + w % ENTRIES, e.flags))
            && (Look(s1, At(g, b, w)) != Look(s0, At(g, b, w)) <==> e.pfn >= BELOW_4G)
  {
    hide At;
    hide Good;
    hide Look;
    hide BigSlot;
    hide Pow;
    hide Round;
    hide SplitDone;
    var P, Q := At(g, b, v), At(g, b, w);
    Neighbours(g, b, v, w);
    SplitRoundGood(g, s0, s1, b, v, n, 1);
    UnderBigPage(g, s0, P);
    var mid :| Presplit(g, s0, mid, b, v) && mid != s0 && Round(g, mid, s1, b, v, n, 1);
    RoundBeside(g, mid, s1, b, v, n, Q);
    SplitBelow(g, s0, mid, b, v, Q);
  }

  lemma RoundBeside(g: Geometry, s0: State, s1: State, b: Path, v: nat, n: nat, Q: Path)
    requires |b| < g.levels && Round(g, s0, s1, b, v, n, 1) && IsPath(At(g, b, v), g.levels)
    requires IsPath(Q, g.levels) && !(At(g, b, v) <= Q)
    ensures Look(s1, Q) == Look(s0, Q)
  {
    hide At;
    hide Look;
    hide Step;
    hide NoNewBig;
    assert At(g, b, v)[..g.levels] == At(g, b, v);
  }

  lemma SplitBelow(g: Geometry, s0: State, s1: State, b: Path, v: nat, Q: Path)
    requires HasBig(g, b) && SplitDone(g, s0, s1, b, v) && IsPath(Q, g.levels) && At(g, b, v)[..g.levels - 1] <= Q
    ensures var e := BigSlot(g, s0, At(g, b, v));
            e.Page? && Look(s1, Q) == Some(Mapping(e.pfn % BELOW_4G + Q[g.levels - 1], e.flags))
  {
    hide At;
    hide Look;
    hide Step;
    hide NoNewBig;
    hide Shrunk;
    hide SameOutside;
  }

  /** Two pages of a block: their paths differ, in the last index only. */
  lemma Neighbours(g: Geometry, b: Path, v: nat, w: nat)
    requires Fits(g, b, v, 1) && w < Pow(g.levels - |b|) && w != v && w / ENTRIES == v / ENTRIES
    ensures IsPath(At(g, b, v), g.levels) && IsPath(At(g, b, w), g.levels) && !(At(g, b, v) <= At(g, b, w))
    ensures At(g, b, v)[..g.levels - 1] <= At(g, b, w) && At(g, b, w)[g.levels - 1] == w % ENTRIES
  {
    hide At;
    hide Pow;
    AtIsPath(g, b, v);
    AtIsPath(g, b, w);
    SameBlock(g, b, v, w);
    BlockPath(g, b, w);
    var P, Q := At(g, b, v), At(g, b, w);
    if P == Q {
      AtInjective(g, b, v, w);
    }
    assert P[..g.levels] == P && Q[..g.levels] == Q;
  }

  lemma SplitRoundGood(g: Geometry, s0: State, s1: State, b: Path, v: nat, n: nat, k: nat)
    requires |b| < g.levels && SplitRound(g, s0, s1, b, v, n, k)
    ensures Good(g, s0)
  {
    hide At;
    hide Lookup;
  }

  // ---- A tree of one table ----

  lemma Seedling(g: Geometry, s: State, f: nat)
    requires g.Valid() && s.at == map[[] := f] && f < |s.mem| && s.used == {f}
    requires forall i | 0 <= i < |s.mem| :: Blank(s.mem[i])
    ensures Good(g, s)
  {
    forall p: Path, i: nat ensures LeadsDown(s.mem, s.at, p, i) {
    }
    forall q: Path ensures HangsUp(s.mem, s.at, q) {
    }
    forall p, i: nat | p in s.at ensures PageOk(g, |p|, Entry(s.mem, s.at[p], i)) {
    }
  }

  method NewTree(g: Geometry) returns (t: PageTables, st: Structs, ghost at: map<Path, nat>)
    requires g.Valid()
    ensures fresh(t) && fresh(t.pool) && fresh(t.pool.bitmap) && t.Ready(st, [], at) && st.g == g
    ensures |at| == 1 && [] in at && at[[]] < |t.mem| && t.pool.Used() == at.Values && t.pool.Limit() == 128
    ensures forall i | 0 <= i < |t.mem| :: Blank(t.mem[i])
  {
    t := new PageTables(128);
    var f := t.AllocTable();
    assert t.Full() ==> 0 in t.pool.Used();
    at := map[[] := f.value];
    st := Structs(g, 0, f.value);
    Seedling(g, t.S(at), f.value);
    assert at.Values == {f.value};
  }

  // ---- Few tables are not all pages ----

  lemma NewOnRange(g: Geometry, s0: State, s1: State, v: nat, n: nat, q: Path)
    requires g.levels > 0 && RangeStep(g, s0, s1, [], v, n) && q in s1.at && q !in s0.at
    ensures Touches(g, [], v, n, q) && |q| < g.levels
  {
    hide At;
    hide Framed;
    hide NewBigInside;
    assert HangsUp(s1.mem, s1.at, q);
    var p, i := q[..|q| - 1], q[|q| - 1];
    assert q == p + [i] && LeadsDown(s0.mem, s0.at, p, i);
    assert !Touches(g, [], v, n, p + [i]) ==> SlotKept(s0, s1, p, i);
  }

  lemma FourPaths(a: Path, b: Path, c: Path, d: Path)
    ensures |{a, b, c, d}| <= 4
  {
    assert {a, b, c, d} == {a} + {b} + {c} + {d};
    assert |{a} + {b}| <= 2 && |{a} + {b} + {c}| <= 3;
  }

  lemma UsedFew(g: Geometry, s0: State, s1: State)
    requires Good(g, s1) && Framed(s0, s1) && s0.used == s0.at.Values
    ensures |s1.used| <= |s1.at|
  {
    assert s0.used - s0.at.Values == {};
    forall f | f in s1.used ensures f in s1.at.Values {
      assert f !in s1.used - s1.at.Values;
    }
    PageRuns.TableCount(s1.at);
    SubsetCount(s1.used, s1.at.Values);
  }

  lemma KeysFew(keys: set<Path>, P: Path)
    requires |P| <= 3 && forall q | q in keys :: q <= P
    ensures |keys| <= 4
  {
    var a, b, c: Path := P[..Least(1, |P|)], P[..Least(2, |P|)], P[..|P|];
    forall q | q in keys ensures q in {[], a, b, c} {
      assert q == P[..|q|];
    }
    FourPaths([], a, b, c);
    SubsetCount(keys, {[], a, b, c});
  }

  /** A tree of one table that has grown along one walk of at most three levels does not fill the pool. */
  lemma NotFull(g: Geometry, s0: State, s1: State, P: Path)
    requires Good(g, s1) && Framed(s0, s1) && s0.used == s0.at.Values && |s0.at| == 1 && [] in s0.at && |P| <= 3
    requires forall q | q in s1.at && q !in s0.at :: q <= P
    ensures exists p: nat :: p < 128 && p !in s1.used
  {
    hide Good;
    hide Framed;
    UsedFew(g, s0, s1);
    forall q | q in s1.at.Keys ensures q <= P {
      if q in s0.at {
        OnlyRoot(s0.at, q);
      }
    }
    KeysFew(s1.at.Keys, P);
    SubsetCount(UpTo(128) * s1.used, s1.used);
    assert UpTo(128) * s1.used != UpTo(128);
  }

  lemma OnlyRoot(at: map<Path, nat>, q: Path)
    requires |at| == 1 && [] in at && q in at
    ensures q == []
  {
    if q != [] {
      SubsetCount({[], q}, at.Keys);
    }
  }

  lemma PowSmall()
    ensures Pow(2) == 512 * 512 && Pow(3) == 512 * 512 * 512
  {
    assert Pow(0) == 1 && Pow(1) == 512;
    assert Pow(3) == ENTRIES * Pow(2);
  }

  // ---- The runs ----

  /** On a new tree, mapping the first 2 MiB page reports success, but maps nothing and dirties a free page. */
  method LoseBlock() returns (t: PageTables, st: Structs, err: int, ghost s0: State, ghost s1: State)
    ensures fresh(t) && fresh(t.pool) && st.g == Geometry(3, true) && Good(st.g, s0)
    ensures err == 0 && Lost(st.g, s0, s1, [], 0) && s1.mem == t.mem && s1.used == t.pool.Used()
  {
    hide At;
    hide Good;
    hide Lost;
    hide Pow;
    hide Pool.PagePool.Used;
    ghost var at;
    t, st, at := NewTree(Geometry(3, true));
    s0 := t.S(at);
    PowSmall();
    NotAnchored(st.g, s0, 0);
    var step;
    ghost var at1, gone, lost;
    err, step, at1, gone, lost := t.MapRound(st, 0, 512, 0, 1, [], at, s0, None, 0);
    s1 := t.S(at1);
    if err != 0 {
      forall q | q in s1.at && q !in s0.at ensures q <= At(st.g, [], 0) {
        NewOnWalk(st.g, s0, s1, [], At(st.g, [], 0), q);
      }
      NotFull(st.g, s0, s1, At(st.g, [], 0));
      assert false;
    }
  }

  lemma NotAnchored(g: Geometry, s: State, v: nat)
    requires g == Geometry(3, true) && |s.at| == 1 && [] in s.at
    ensures !Anchored(g, s, [], v) && Fresh(g, s, [], v)
  {
    hide At;
    var P := At(g, [], v);
    forall k: nat | 0 < k < 3 ensures P[..k] !in s.at {
      if P[..k] in s.at {
        OnlyRoot(s.at, P[..k]);
      }
    }
  }

  /** With only page 512 mapped, unmapping pages 1 to 512 reports success, but page 512 is still mapped. */
  method SkipPage() returns (t: PageTables, st: Structs, err: int, ghost at: map<Path, nat>)
    ensures fresh(t) && fresh(t.pool) && st.g == Geometry(2, true) && t.Ready(st, [], at)
    ensures err == 0 && PageRuns.View(st.g, t.S(at), 512) == Some(Mapping(7, 1))
  {
    hide At;
    hide Good;
    hide Pow;
    hide Look;
    hide Rounds;
    hide Clean;
    hide MapOk;
    hide AnchorOk;
    hide RangeStep;
    hide Worked;
    hide Created;
    hide CreatedOver;
    hide Pool.PagePool.Used;
    t, st, at := NewTree(Geometry(2, true));
    ghost var s0 := t.S(at);
    PowSmall();
    OnePageOk(st.g, s0);
    ghost var k;
    MapOkAnchors(st.g, s0, [], 512, 1, 7, 1);
    err, at, k := t.Create(st, 7, 1, 512, 1, [], at);
    ghost var s := t.S(at);
    WorkedFacts(st.g, s0, s, [], 512, 1);
    OnePageRoom(st.g, s0, s);
    OnePageMapped(st.g, s0, s);
    ghost var ss, vs;
    err, at, ss, vs := t.Destroy(st, 1, 512, [], at, false);
    SkipRound(st.g, ss, vs);
  }

  lemma OnePageOk(g: Geometry, s: State)
    requires g == Geometry(2, true) && [] in s.at && s.at[[]] < |s.mem| && Blank(s.mem[s.at[[]]])
    ensures MapOk(g, s, [], 512, 1, 7, 1)
  {
    hide At;
    forall w: nat | 512 <= w < 513 ensures MapOkAt(g, s, [], 512, 1, 7, 1, w) {
      assert BigSlot(g, s, At(g, [], w)) == Absent;
    }
  }

  lemma OnePageRoom(g: Geometry, s0: State, s: State)
    requires g == Geometry(2, true) && RangeStep(g, s0, s, [], 512, 1) && s0.used == s0.at.Values && |s0.at| == 1
    ensures exists p: nat :: p < 128 && p !in s.used
  {
    hide At;
    forall q | q in s.at && q !in s0.at ensures q <= At(g, [], 512) {
      NewOnRange(g, s0, s, 512, 1, q);
    }
    NotFull(g, s0, s, At(g, [], 512));
  }

  lemma OnePageMapped(g: Geometry, s0: State, s: State)
    requires g == Geometry(2, true) && RangeStep(g, s0, s, [], 512, 1) && Created(g, s0, s, [], 512, 1, 7, 1)
    requires [] in s0.at && s0.at[[]] < |s0.mem| && Blank(s0.mem[s0.at[[]]])
    ensures Look(s, At(g, [], 512)) == Some(Mapping(7, 1)) && [] in s.at && BigSlot(g, s, At(g, [], 1)) == Absent
  {
    hide At;
    hide Good;
    hide Framed;
    hide Lookup;
    hide Pow;
    PowSmall();
    assert Look(s, At(g, [], 512)) == Mapped(7 + (512 - 512), 1);
    AtIsPath(g, [], 1);
    AtIsPath(g, [], 512);
    SameBlock(g, [], 1, 512);
    var P, Q := At(g, [], 1), At(g, [], 512);
    assert P[..1] == [P[0]] && Q[..1] == [Q[0]] && P[..0] == [];
    assert !([P[0]] <= Q) && [] + [P[0]] == [P[0]];
    assert !Touches(g, [], 512, 1, [] + [P[0]]);
    assert SlotKept(s0, s, [], P[0]);
  }

  /** One round at page 1 steps to page 513 and leaves page 512. */
  lemma SkipRound(g: Geometry, ss: seq<State>, vs: seq<nat>)
    requires g == Geometry(2, true) && |ss| == |vs| > 0 && Rounds(g, ss, vs, [], 1, 512)
    requires [] in ss[0].at && BigSlot(g, ss[0], At(g, [], 1)) == Absent
    ensures |vs| > 1 ==> |vs| == 2 && vs[1] == 513 && Look(ss[1], At(g, [], 512)) == Look(ss[0], At(g, [], 512))
  {
    hide At;
    hide Step;
    hide Lookup;
    hide Pow;
    PowSmall();
    AtIsPath(g, [], 1);
    AtIsPath(g, [], 512);
    SameBlock(g, [], 1, 512);
    var P, Q := At(g, [], 1), At(g, [], 512);
    assert P[..0] == [];
    if |vs| > 1 {
      assert SplitRound(g, ss[0], ss[1], [], 1, 512, vs[1] - vs[0]);
      assert StepsBlock(g, ss[0], [], 1, 512);
      assert !(P[..1] <= Q);
    }
  }

  lemma FirstRoom(g: Geometry, s0: State, s: State)
    requires g.levels == 2 && Calm(g, s0, s, [], At(g, [], 0)) && s0.used == s0.at.Values && |s0.at| == 1
    ensures exists p: nat :: p < 128 && p !in s.used
  {
    hide At;
    hide Good;
    forall q | q in s.at && q !in s0.at ensures q <= At(g, [], 0) {
      NewOnWalk(g, s0, s, [], At(g, [], 0), q);
    }
    NotFull(g, s0, s, At(g, [], 0));
  }

  lemma BlockRoom(g: Geometry, s0: State, s: State)
    requires g == Geometry(2, true) && RangeStep(g, s0, s, [], 0, 512) && s0.used == s0.at.Values && |s0.at| == 1
    ensures exists p: nat :: p < 128 && p !in s.used
    ensures Good(g, s) && [] in s.at && [] in s0.at && s.at[[]] == s0.at[[]]
  {
    hide At;
    hide Good;
    hide Framed;
    hide Kept;
    hide NewBigInside;
    hide Touches;
    hide Pow;
    PowSmall();
    forall q | q in s.at && q !in s0.at ensures q <= At(g, [], 0) {
      NewOnRange(g, s0, s, 0, 512, q);
      TouchesBlock(g, [], 0, q);
    }
    NotFull(g, s0, s, At(g, [], 0));
  }

  /** A round that needs a split goes on by one page. */
  lemma SplitStepsOne(g: Geometry, s0: State, s1: State, b: Path, v: nat, n: nat, k: nat)
    requires Fits(g, b, v, n) && NeedsSplit(g, s0, b, v, n) && SplitRound(g, s0, s1, b, v, n, k)
    ensures k == 1
  {
    hide At;
    hide Good;
    hide Framed;
    hide KeptBeside;
    hide SameOutside;
    hide Look;
    AtIsPath(g, b, v);
    var mid :| Presplit(g, s0, mid, b, v) && mid != s0 && Round(g, mid, s1, b, v, n, k);
    BigLookup(g, mid, At(g, b, v));
  }

  /** One round at page 511, which splits the 2 MiB page. */
  lemma MoveRound(g: Geometry, ss: seq<State>, vs: seq<nat>)
    requires g == Geometry(2, true) && |ss| == |vs| > 0 && Rounds(g, ss, vs, [], 511, 1)
    requires BigSlot(g, ss[0], At(g, [], 0)) == Page(BELOW_4G, 1)
    ensures vs[0] == 511 && (|vs| > 1 ==> |vs| == 2 && vs[1] == 512 && Look(ss[1], At(g, [], 0)) == Some(Mapping(0, 1)))
  {
    hide At;
    hide Look;
    hide BigSlot;
    hide SplitRound;
    hide Pow;
    PowSmall();
    AtIsPath(g, [], 0);
    AtIsPath(g, [], 511);
    SameBlock(g, [], 0, 511);
    SameSlot(g, ss[0], At(g, [], 0), At(g, [], 511));
    if |vs| > 1 {
      assert SplitRound(g, ss[0], ss[1], [], 511, 1, vs[1] - vs[0]);
      SplitStepsOne(g, ss[0], ss[1], [], 511, 1, vs[1] - vs[0]);
      NeighbourMovesIff(g, ss[0], ss[1], [], 511, 1, 0);
    }
  }

  /**
   * A 2 MiB page at 4 GiB is mapped, and its last page is unmapped: both report success, and the first page, which
   * was not asked for, now leads to physical page 0.
   */
  method MovePage() returns (t: PageTables, st: Structs, err1: int, err2: int, ghost at: map<Path, nat>)
    ensures fresh(t) && fresh(t.pool) && st.g == Geometry(2, true) && t.Ready(st, [], at)
    ensures err1 == err2 == 0 && PageRuns.View(st.g, t.S(at), 0) == Some(Mapping(0, 1))
  {
    hide At;
    hide Good;
    hide Pow;
    hide Look;
    hide Rounds;
    hide Clean;
    hide RangeStep;
    hide Worked;
    hide Created;
    hide BigSlot;
    hide Pool.PagePool.Used;
    t, st, at := NewTree(Geometry(2, true));
    ghost var s0 := t.S(at);
    PowSmall();
    assert Anchored(st.g, s0, [], 0);
    var step;
    ghost var gone, lost;
    err1, step, at, gone, lost := t.MapRound(st, BELOW_4G, 512, 0, 1, [], at, s0, None, 0);
    ghost var s := t.S(at);
    if err1 != 0 {
      FirstRoom(st.g, s0, s);
      assert false;
    }
    BlockRoom(st.g, s0, s);
    ghost var ss, vs;
    err2, at, ss, vs := t.Destroy(st, 511, 1, [], at, false);
    MoveRound(st.g, ss, vs);
  }

  // ---- Two blocks across a boundary ----

  const FIRST: nat := 511 * 512
  const SECOND: nat := 512 * 512
  const FOREIGN: nat := 1023 * 512

  /**
   * The two rounds of mapping 1024 pages from the last 2 MiB block of a 1 GiB region on, in a new tree: both report
   * success. The first block stays unmapped, and its entry maps the last block of the next region, which is outside
   * the range.
   */
  method ForeignBlock() returns (t: PageTables, st: Structs, err1: int, err2: int, ghost at: map<Path, nat>)
    ensures fresh(t) && fresh(t.pool) && st.g == Geometry(3, true) && t.Valid() && err1 == err2 == 0
    ensures PageRuns.View(st.g, t.S(at), FIRST) == None
    ensures PageRuns.View(st.g, t.S(at), SECOND) == Some(Mapping(512, 1))
    ensures PageRuns.View(st.g, t.S(at), FOREIGN) == Some(Mapping(0, 1))
  {
    hide At;
    hide Good;
    hide Lost;
    hide Pow;
    hide Look;
    hide Created;
    hide Unmapped;
    hide RangeStep;
    hide NextTable;
    hide Fresh;
    hide Returns;
    hide Soil;
    hide Pool.PagePool.Used;
    t, st, at := NewTree(Geometry(3, true));
    ghost var s0 := t.S(at);
    PowSmall();
    NotAnchored(st.g, s0, FIRST);
    SoilElsewhere(s0, None, 0);
    var step;
    ghost var gone, lost, back, none;
    err1, step, at, gone, lost := t.MapRound(st, 0, 1024, FIRST, 1, [], at, s0, None, 0);
    if err1 != 0 {
      forall q | q in at && q !in s0.at ensures q <= At(st.g, [], FIRST) {
        NewOnWalk(st.g, s0, t.S(at), [], At(st.g, [], FIRST), q);
      }
      NotFull(st.g, s0, t.S(at), At(st.g, [], FIRST));
      assert false;
    }
    AcrossReturns(st.g, s0, gone, lost);
    SoilElsewhere(gone, Some(lost), 0);
    err2, step, at, back, none := t.MapRound(st, 512, 512, SECOND, 1, [], at, gone, Some(lost), FOREIGN);
    AcrossViews(st.g, s0, gone, back, t.S(at));
  }

  /** The table that comes back is the one of the next region. */
  lemma AcrossReturns(g: Geometry, s0: State, gone: State, x: Dirt)
    requires g == Geometry(3, true) && |s0.at| == 1 && [] in s0.at && gone.at == s0.at
    requires x.i == At(g, [], FIRST)[1] && x.e == Page(0, 1) && NextTable(gone, At(g, [], FIRST), 1, x.f)
    ensures Returns(g, gone, [], SECOND, FOREIGN, x)
  {
    hide At;
    hide Pow;
    PowSmall();
    RegionPath(g, [], FIRST);
    RegionPath(g, [], SECOND);
    RegionPath(g, [], FOREIGN);
    OneMissing(gone, At(g, [], FIRST));
    OneMissing(gone, At(g, [], SECOND));
  }

  lemma OneMissing(s: State, P: Path)
    requires |s.at| == 1 && [] in s.at && |P| >= 1
    ensures Gap(s, P, 1) == 1
  {
    if P[..1] in s.at {
      OnlyRoot(s.at, P[..1]);
    }
    assert Gap(s, P, 0) == 0;
  }

  lemma AcrossViews(g: Geometry, s0: State, gone: State, back: State, s: State)
    requires g == Geometry(3, true) && Unmapped(g, s0, gone, [], FIRST, 512)
    requires Created(g, gone, back, [], FOREIGN, 512, 0, 1) && Created(g, back, s, [], SECOND, 512, 512, 1)
    ensures Look(s, At(g, [], FIRST)) == None && Look(s, At(g, [], SECOND)) == Some(Mapping(512, 1))
    ensures Look(s, At(g, [], FOREIGN)) == Some(Mapping(0, 1))
  {
    hide At;
    hide Look;
    hide Pow;
    hide Within;
    PowSmall();
    AtIsPath(g, [], FIRST);
    AtIsPath(g, [], FOREIGN);
    WithinOne(g, [], FOREIGN, FIRST, 512);
    WithinOne(g, [], SECOND, FIRST, 512);
    WithinOne(g, [], SECOND, FOREIGN, 512);
    assert Look(s, At(g, [], SECOND)) == Mapped(512 + (SECOND - SECOND), 1);
    assert Look(back, At(g, [], FOREIGN)) == Mapped(0 + (FOREIGN - FOREIGN), 1);
  }
}
