/**
 * The first 2 MiB page in a table that does not exist yet. Releasing the old mapping releases the new tables again, and
 * the entry goes into a free page; first fit hands out the same pages in the same order in the next round, so that the
 * entry comes back with its table.
 */
module PageFresh {
  import opened Options
  import opened Counting
  import opened PageTree
  import opened PageRanges
  import opened PageSteps
  import opened PageOps
  import opened PageClean
  import opened PageRounds
  import opened PageMaps
  import opened PageOver

  /** The walk of v does not reach a table of 2 MiB entries, and the tables that it meets all hold something. */
  ghost predicate Fresh(g: Geometry, s: State, b: Path, v: nat)
    requires HasBig(g, b)
  {
    !ReachesBig(g, s, At(g, b, v)) && Tight(g, s, b, At(g, b, v))
  }

  // ---- First fit ----

  /** How many tables are missing on the walk of P down to depth d. */
  function Gap(s: State, P: Path, d: nat): nat
    requires d <= |P|
  {
    if d == 0 || P[..d] in s.at then 0 else Gap(s, P, d - 1) + 1
  }

  ghost function FreeBelow(used: set<nat>, f: nat): set<nat> {
    set p: nat | p < f && p !in used
  }

  /** A free page is determined by the number of free pages below it. */
  lemma RankInjective(used: set<nat>, e: nat, f: nat)
    requires e !in used && f !in used && |FreeBelow(used, e)| == |FreeBelow(used, f)|
    ensures e == f
  {
    if e < f {
      SubsetCount(FreeBelow(used, e) + {e}, FreeBelow(used, f));
    } else if f < e {
      SubsetCount(FreeBelow(used, f) + {f}, FreeBelow(used, e));
    }
  }

  /** Page f comes to be the table at depth d if tables are added on the walk of P. */
  ghost predicate NextTable(s: State, P: Path, d: nat, f: nat)
    requires d <= |P|
  {
    f !in s.used && |FreeBelow(s.used, f)| + 1 == Gap(s, P, d)
  }

  /** Tables have been added on the walk of P down to depth d, each in the lowest free page. */
  ghost predicate Grown(s0: State, s: State, P: Path, d: nat)
    requires d <= |P|
  {
    && Shrunk(s, s0) && s0.used <= s.used && |s.used - s0.used| == Gap(s0, P, d)
    && (forall f, p: nat | f in s.used - s0.used && p !in s.used :: f < p)
    && (P[..d] in s.at && P[..d] !in s0.at ==> NextTable(s0, P, d, s.at[P[..d]]))
  }

  lemma GrownStart(s: State, P: Path, d: nat)
    requires d <= |P| && P[..d] in s.at
    ensures Grown(s, s, P, d)
  {
    assert s.used - s.used == {};
  }

  /** One table more. */
  lemma GrownMore(s0: State, s: State, s1: State, P: Path, d: nat, f: nat)
    requires d < |P| && Grown(s0, s, P, d) && P[..d + 1] !in s.at
    requires f !in s.used && forall p: nat | p < f :: p in s.used
    requires s1.used == s.used + {f} && s1.at == s.at[P[..d + 1] := f]
    ensures Grown(s0, s1, P, d + 1) && NextTable(s0, P, d + 1, f)
  {
    assert P[..d + 1] !in s0.at;
    assert FreeBelow(s0.used, f) == s.used - s0.used;
    assert s1.used - s0.used == (s.used - s0.used) + {f};
    assert Gap(s0, P, d + 1) == Gap(s0, P, d) + 1;
  }

  lemma {:induction false} GapLess(g: Geometry, s: State, P: Path, d: nat, e: nat)
    requires Good(g, s) && d < e <= |P| && P[..d] !in s.at
    ensures Gap(s, P, d) < Gap(s, P, e) && P[..e] !in s.at
  {
    if P[..e] in s.at {
      Ancestors(g, s, P, d, e);
    } else if d + 1 < e {
      GapLess(g, s, P, d, e - 1);
    }
  }

  /** Of the pages that become tables on the walk, only the one for depth e is that one. */
  lemma FirstFit(g: Geometry, s: State, P: Path, d: nat, e: nat, f: nat, x: nat)
    requires Good(g, s) && d <= e <= |P| && P[..d] !in s.at && NextTable(s, P, d, f) && NextTable(s, P, e, x)
    ensures f == x <==> d == e
  {
    if d == e {
      RankInjective(s.used, f, x);
    } else {
      GapLess(g, s, P, d, e);
    }
  }

  lemma TableMissing(s: State, P: Path, d: nat, f: nat)
    requires d <= |P| && NextTable(s, P, d, f)
    ensures P[..d] !in s.at && d > 0
  {
  }

  lemma FirstFitHere(g: Geometry, c: State, s: State, P: Path, d: nat, e: nat, f: nat, x: nat)
    requires Good(g, c) && d < e <= |P| && NextTable(c, P, d + 1, f) && NextTable(c, P, e, x) && P[..d + 1] !in s.at
    requires Grown(c, s, P, d)
    ensures f == x <==> d + 1 == e
  {
    FirstFit(g, c, P, d + 1, e, f, x);
  }

  /** The walk goes on into a table that is there already. */
  lemma GrownNext(g: Geometry, c: State, s: State, b: Path, v: nat, d: nat)
    requires |b| <= g.levels && d < g.levels && (Grown(c, s, At(g, b, v), d) ==> s == c)
    requires At(g, b, v)[..d] in s.at && At(g, b, v)[..d + 1] in s.at
    ensures Grown(c, s, At(g, b, v), d) ==> Grown(c, s, At(g, b, v), d + 1)
  {
    if s == c {
      GrownStart(s, At(g, b, v), d + 1);
    }
  }

  lemma TableUsed(g: Geometry, s: State, p: Path)
    requires Good(g, s) && p in s.at
    ensures s.at[p] in s.used
  {
  }

  // ---- A free page with an entry in it ----

  /** The entry e at index i of the free page f. */
  datatype Dirt = Dirt(f: nat, i: nat, e: Pte)

  predicate Fitting(s: State, x: Dirt) { x.f < |s.mem| && |s.mem[x.f]| == ENTRIES && x.i < ENTRIES }

  function Soil(s: State, dirt: Option<Dirt>): State {
    match dirt
    case None => s
    case Some(x) => if Fitting(s, x) then s.(mem := Put(s.mem, x.f, x.i, x.e)) else s
  }

  /** A state that is well-formed but for the entry in a free page. */
  ghost predicate Soiled(g: Geometry, s: State, c: State, dirt: Option<Dirt>) {
    && s == Soil(c, dirt) && Good(g, c)
    && (dirt.Some? ==> Fitting(c, dirt.value) && dirt.value.f !in c.used)
  }

  /** Tables other than the dirty page are as they should be. */
  lemma SoilElsewhere(c: State, dirt: Option<Dirt>, t: nat)
    ensures Soil(c, dirt).at == c.at && Soil(c, dirt).used == c.used && |Soil(c, dirt).mem| == |c.mem|
    ensures dirt.None? ==> Soil(c, dirt) == c
    ensures (dirt.Some? ==> dirt.value.f != t) && t < |c.mem| ==> Soil(c, dirt).mem[t] == c.mem[t]
  {
  }

  lemma SoilHung(c: State, dirt: Option<Dirt>, h: State, P: Path, d: nat, f: nat)
    requires d < |P| && P[..d] in c.at && c.at[P[..d]] < |c.mem|
    requires P[d] < |c.mem[c.at[P[..d]]]| && h == Hung(c, P, d, f)
    requires dirt.Some? ==> Fitting(c, dirt.value) && dirt.value.f != c.at[P[..d]]
    ensures var t := c.at[P[..d]];
            && |Soil(c, dirt).mem| == |c.mem| && Soil(c, dirt).mem[t] == c.mem[t]
            && Soil(h, dirt) == State(Put(Soil(c, dirt).mem, t, P[d], Next(f)), h.used, h.at)
    ensures dirt.Some? ==> Fitting(h, dirt.value)
  {
    if dirt.Some? {
      var x, t := dirt.value, c.at[P[..d]];
      var a, b := Put(Put(c.mem, t, P[d], Next(f)), x.f, x.i, x.e), Put(Put(c.mem, x.f, x.i, x.e), t, P[d], Next(f));
      assert forall i | 0 <= i < |c.mem| :: a[i] == b[i];
    }
  }

  /** The walk of v turns the dirty page into the table with the entry of u's block, which lies beside that of v. */
  ghost predicate Returns(g: Geometry, c: State, b: Path, v: nat, u: nat, x: Dirt) {
    && HasBig(g, b) && Fits(g, b, u, ENTRIES) && u % ENTRIES == 0
    && At(g, b, u)[..g.levels - 2] == At(g, b, v)[..g.levels - 2]
    && At(g, b, u)[g.levels - 2] != At(g, b, v)[g.levels - 2] && x.i == At(g, b, u)[g.levels - 2]
    && x.e.Page? && x.e.pfn % ENTRIES == 0 && x.e.flags % 2 == 1
    && NextTable(c, At(g, b, v), g.levels - 2, x.f)
  }

  /** Both have the same tables down to depth d, so what is said of a walk down to there is the same. */
  lemma {:induction false} GapSame(s: State, t: State, P: Path, Q: Path, d: nat)
    requires d <= |P| && d <= |Q| && P[..d] == Q[..d] && s.at == t.at
    ensures Gap(s, P, d) == Gap(t, Q, d)
  {
    if d > 0 {
      assert P[..d - 1] == P[..d][..d - 1] == Q[..d - 1];
      GapSame(s, t, P, Q, d - 1);
    }
  }

  // ---- The new tables are released again ----

  /** A table that is new in s1 is on the walk of P. */
  lemma NewOnWalk(g: Geometry, s0: State, s1: State, b: Path, P: Path, q: Path)
    requires Step(g, s0, s1, b, P) && q in s1.at && q !in s0.at
    ensures q <= P
  {
    hide Framed;
    assert HangsUp(s1.mem, s1.at, q);
    var p, i := q[..|q| - 1], q[|q| - 1];
    assert q == p + [i] && LeadsDown(s0.mem, s0.at, p, i);
    assert !(q <= P) ==> SlotKept(s0, s1, p, i);
  }

  /** An entry beside the walk of v is neither touched on the way down nor when the block of v is released. */
  lemma BesideKept(g: Geometry, s0: State, s: State, s2: State, b: Path, v: nat, p: Path, i: nat)
    requires HasBig(g, b) && Fits(g, b, v, ENTRIES) && v % ENTRIES == 0 && |p| + 1 < g.levels
    requires KeptBeside(g, s0, s, At(g, b, v)) && Kept(g, s, s2, b, v, ENTRIES) && !(p + [i] <= At(g, b, v))
    ensures SlotKept(s0, s, p, i) && SlotKept(s, s2, p, i) && SlotKept(s0, s2, p, i)
  {
    hide At;
    hide Pow;
    hide Slot;
    TouchesBlock(g, b, v, p + [i]);
    assert SlotKept(s0, s, p, i) && SlotKept(s, s2, p, i);
  }

  lemma Parent(g: Geometry, s: State, P: Path, k: nat)
    requires Good(g, s) && k < |P| && P[..k + 1] in s.at
    ensures P[..k] in s.at
  {
    assert P[..k + 1][..k] == P[..k] && HangsUp(s.mem, s.at, P[..k + 1]);
  }

  lemma {:induction false} Ancestors(g: Geometry, s: State, P: Path, j: nat, k: nat)
    requires Good(g, s) && j <= k <= |P| && P[..k] in s.at
    ensures P[..j] in s.at
    decreases k
  {
    if j < k {
      Parent(g, s, P, k - 1);
      Ancestors(g, s, P, j, k - 1);
    }
  }

  /** An entry above the tables of 2 MiB entries leads to a table. */
  lemma OnlyTable(g: Geometry, s: State, P: Path, k: nat)
    requires Good(g, s) && |P| == g.levels && k + 2 < g.levels && P[..k] in s.at && Slot(s, P[..k], P[k]) != Absent
    ensures P[..k + 1] in s.at
  {
    assert P[..k + 1] == P[..k] + [P[k]] && LeadsDown(s.mem, s.at, P[..k], P[k]);
    assert PageOk(g, |P[..k]|, Entry(s.mem, s.at[P[..k]], P[k]));
  }

  /** The block of v has been released after the way down from s0, with nothing left of its table of 2 MiB entries. */
  ghost predicate Withdrawn(g: Geometry, s0: State, s: State, s2: State, b: Path, v: nat)
    requires HasBig(g, b)
  {
    && Fits(g, b, v, ENTRIES) && v % ENTRIES == 0 && Good(g, s0) && Good(g, s2) && b in s0.at && b in s2.at
    && Step(g, s0, s, b, At(g, b, v)) && Shrunk(s, s0) && Kept(g, s, s2, b, v, ENTRIES) && Shrunk(s, s2)
    && BigSlot(g, s2, At(g, b, v)) == Absent && Tight(g, s2, b, At(g, b, v)) && !ReachesBig(g, s2, At(g, b, v))
  }

  /** No table is left that was not there before. */
  lemma {:induction false} NoneAdded(g: Geometry, s0: State, s: State, s2: State, b: Path, v: nat, k: nat)
    requires HasBig(g, b) && Withdrawn(g, s0, s, s2, b, v) && |b| < k <= g.levels - 2
    ensures At(g, b, v)[..k] in s2.at ==> At(g, b, v)[..k] in s0.at
    decreases g.levels - k
  {
    hide At;
    hide Good;
    hide Framed;
    hide Kept;
    hide KeptBeside;
    hide Tight;
    hide Pow;
    var P, d := At(g, b, v), g.levels - 2;
    if P[..k] in s2.at && k < d {
      NotBlankEntry(g, s2, b, P, k);
      var i: nat :| i < ENTRIES && Slot(s2, P[..k], i) != Absent;
      if i == P[k] {
        OnlyTable(g, s2, P, k);
        NoneAdded(g, s0, s, s2, b, v, k + 1);
        Parent(g, s0, P, k);
      } else {
        assert (P[..k] + [i])[k] == i;
        BesideKept(g, s0, s, s2, b, v, P[..k], i);
      }
    }
  }

  /** No table is lost that was there before. */
  lemma {:induction false} NoneLost(g: Geometry, s0: State, s: State, s2: State, b: Path, v: nat, k: nat)
    requires HasBig(g, b) && Withdrawn(g, s0, s, s2, b, v) && Fresh(g, s0, b, v) && |b| < k <= g.levels - 2
    ensures At(g, b, v)[..k] in s0.at ==> At(g, b, v)[..k] in s2.at
    decreases g.levels - k
  {
    hide At;
    hide Good;
    hide Framed;
    hide Kept;
    hide KeptBeside;
    hide Tight;
    hide Pow;
    var P, d := At(g, b, v), g.levels - 2;
    if P[..k] in s0.at && k < d {
      NotBlankEntry(g, s0, b, P, k);
      var i: nat :| i < ENTRIES && Slot(s0, P[..k], i) != Absent;
      if i == P[k] {
        OnlyTable(g, s0, P, k);
        NoneLost(g, s0, s, s2, b, v, k + 1);
        Parent(g, s2, P, k);
      } else {
        assert (P[..k] + [i])[k] == i;
        BesideKept(g, s0, s, s2, b, v, P[..k], i);
      }
    }
  }

  lemma StaysHung(g: Geometry, s0: State, s: State, s2: State, b: Path, v: nat, q: Path)
    requires HasBig(g, b) && Withdrawn(g, s0, s, s2, b, v) && Fresh(g, s0, b, v) && q in s0.at
    ensures q in s2.at
  {
    hide At;
    hide Framed;
    hide Kept;
    hide KeptBeside;
    hide Tight;
    hide Pow;
    AtIsPath(g, b, v);
    var P, d := At(g, b, v), g.levels - 2;
    if q <= P {
      assert q == P[..|q|] && P[..|b|] == b;
      if |q| <= |b| {
        Ancestors(g, s2, P, |q|, |b|);
      } else if |q| <= d {
        NoneLost(g, s0, s, s2, b, v, |q|);
      } else {
        Parent(g, s0, P, d);
      }
    } else {
      var p, i := q[..|q| - 1], q[|q| - 1];
      assert q == p + [i] && HangsUp(s0.mem, s0.at, q);
      BesideKept(g, s0, s, s2, b, v, p, i);
      assert LeadsDown(s2.mem, s2.at, p, i);
    }
  }

  lemma NothingNew(g: Geometry, s0: State, s: State, s2: State, b: Path, v: nat, q: Path)
    requires HasBig(g, b) && Withdrawn(g, s0, s, s2, b, v) && q in s2.at
    ensures q in s0.at
  {
    hide At;
    hide Framed;
    hide Kept;
    hide KeptBeside;
    hide Tight;
    hide Pow;
    AtIsPath(g, b, v);
    var P, d := At(g, b, v), g.levels - 2;
    if q !in s0.at {
      NewOnWalk(g, s0, s, b, P, q);
      assert q == P[..|q|] && P[..|b|] == b;
      if |q| <= |b| {
        Ancestors(g, s0, P, |q|, |b|);
      } else if |q| <= d {
        NoneAdded(g, s0, s, s2, b, v, |q|);
      } else {
        BigLookup(g, s2, P);
      }
    }
  }

  /** In a fresh place the tables, and the pages in use, are what they were. */
  lemma SameTables(g: Geometry, s0: State, s: State, s2: State, b: Path, v: nat)
    requires HasBig(g, b) && Withdrawn(g, s0, s, s2, b, v) && Fresh(g, s0, b, v) && Framed(s0, s2)
    ensures s2.at == s0.at && s2.used == s0.used
  {
    hide At;
    hide Shape;
    hide Kept;
    hide KeptBeside;
    hide Tight;
    hide Pow;
    forall q | q in s0.at ensures q in s2.at {
      StaysHung(g, s0, s, s2, b, v, q);
    }
    forall q | q in s2.at ensures q in s0.at {
      NothingNew(g, s0, s, s2, b, v, q);
    }
    assert s2.at == s0.at;
    assert s2.used == (s2.used - s2.at.Values) + s2.at.Values && s0.used == (s0.used - s0.at.Values) + s0.at.Values;
  }

  // ---- The page comes back as a table ----

  /** Preparations for v that stop at a blank table are preparations for every page of its region. */
  lemma CalmRegion(g: Geometry, s: State, h: State, b: Path, v: nat, u: nat)
    requires HasBig(g, b) && IsPath(b, |b|) && Calm(g, s, h, b, At(g, b, v))
    requires At(g, b, u)[..g.levels - 2] == At(g, b, v)[..g.levels - 2] && !ReachesBig(g, s, At(g, b, v))
    requires ReachesBig(g, h, At(g, b, v)) && Blank(h.mem[h.at[At(g, b, v)[..g.levels - 2]]])
    ensures Calm(g, s, h, b, At(g, b, u))
  {
    hide At;
    hide Framed;
    hide NoNewBig;
    hide SameLookups;
    AtIsPath(g, b, u);
    AtIsPath(g, b, v);
    var P, U, d := At(g, b, v), At(g, b, u), g.levels - 2;
    assert forall k: nat | k <= d :: P[..k] == P[..d][..k] == U[..k];
    forall p: Path, i: nat | |p| + 1 < g.levels && !(p + [i] <= U) ensures SlotKept(s, h, p, i) {
      if p + [i] <= P {
        assert p + [i] == P[..|p| + 1];
        assert p == P[..d] && i == P[d];
        assert Slot(s, P[..d], P[d]) == Absent && Slot(h, P[..d], P[d]) == Absent;
      } else {
        assert SlotKept(s, h, p, i);
      }
    }
  }

  /** A blank table maps nothing. */
  lemma BlankRegion(g: Geometry, h: State, b: Path, u: nat)
    requires HasBig(g, b) && Good(g, h) && Fits(g, b, u, ENTRIES) && u % ENTRIES == 0
    requires ReachesBig(g, h, At(g, b, u)) && Blank(h.mem[h.at[At(g, b, u)[..g.levels - 2]]])
    ensures BigSlot(g, h, At(g, b, u)) == Absent && Unmapped(g, h, h, b, u, ENTRIES)
  {
    hide At;
    hide Shape;
    hide Pow;
    AtIsPath(g, b, u);
    var U, d := At(g, b, u), g.levels - 2;
    UnderAbsent(g, h, U, d);
    forall k: nat | u <= k < u + ENTRIES ensures Look(h, At(g, b, k)) == None {
      InBlock(g, b, u, k);
    }
  }

  /**
   * The dirty page has become the table of 2 MiB entries on the walk of v: its entry maps the block of u, which is in
   * the region of v.
   */
  lemma ComesBack(g: Geometry, s: State, h: State, V: State, b: Path, v: nat, u: nat, f: nat, pfn: nat, flags: nat)
    requires HasBig(g, b) && Fits(g, b, u, ENTRIES) && u % ENTRIES == 0 && pfn % ENTRIES == 0 && flags % 2 == 1
    requires Calm(g, s, h, b, At(g, b, v)) && Spot(g, h, b, v, g.levels - 2) && !ReachesBig(g, s, At(g, b, v))
    requires At(g, b, u)[..g.levels - 2] == At(g, b, v)[..g.levels - 2]
    requires f == TableAt(g, h, b, v, g.levels - 2) && f < |h.mem| && Blank(h.mem[f])
    requires V == Soil(h, Some(Dirt(f, At(g, b, u)[g.levels - 2], Page(pfn, flags))))
    ensures RangeStep(g, s, V, b, u, ENTRIES) && Created(g, s, V, b, u, ENTRIES, pfn, flags)
    ensures BigSlot(g, V, At(g, b, u)) == Page(pfn, flags) && V.at == h.at
  {
    hide At;
    hide Shape;
    hide Framed;
    hide KeptBeside;
    hide NoNewBig;
    hide SameLookups;
    hide Created;
    hide Unmapped;
    hide Pow;
    AtIsPath(g, b, u);
    CalmRegion(g, s, h, b, v, u);
    BlankRegion(g, h, b, u);
    RangeStepSelf(g, h, b, u);
    RangeStepMore(g, h, h, b, u, 0, ENTRIES);
    MapBlock(g, h, h, V, b, u, pfn, flags);
    CalmThenMap(g, s, h, V, b, u, ENTRIES, pfn, flags);
  }

  /** The state V with the returned entry is where the round for v goes on. */
  lemma BackOnWalk(g: Geometry, s: State, h: State, V: State, b: Path, v: nat, u: nat, x: Dirt)
    requires Returns(g, s, b, v, u, x) && IsPath(b, |b|)
    requires Calm(g, s, h, b, At(g, b, v)) && Spot(g, h, b, v, g.levels - 2)
    requires x.f == TableAt(g, h, b, v, g.levels - 2) && x.f < |h.mem| && Blank(h.mem[x.f]) && V == Soil(h, Some(x))
    ensures RangeStep(g, s, V, b, u, ENTRIES) && Created(g, s, V, b, u, ENTRIES, x.e.pfn, x.e.flags)
    ensures Good(g, V) && b in V.at && b in s.at && V.at[b] == s.at[b] && V.at == h.at
    ensures Spot(g, V, b, v, g.levels - 2) && TableAt(g, V, b, v, g.levels - 2) == x.f && Anchored(g, V, b, v)
    ensures Calm(g, V, V, b, At(g, b, v))
  {
    hide At;
    hide Shape;
    hide Framed;
    hide Kept;
    hide KeptBeside;
    hide NoNewBig;
    hide NewBigInside;
    hide SameLookups;
    hide Created;
    hide Pow;
    AtIsPath(g, b, u);
    AtIsPath(g, b, v);
    ComesBack(g, s, h, V, b, v, u, x.f, x.e.pfn, x.e.flags);
    StepSelf(g, V, b, At(g, b, v));
    assert Slot(V, At(g, b, v)[..g.levels - 2], x.i) == x.e;
  }

  lemma ReturnsFacts(g: Geometry, c: State, b: Path, v: nat, u: nat, dirt: Option<Dirt>)
    requires dirt.Some? ==> Returns(g, c, b, v, u, dirt.value)
    ensures dirt.Some? ==> HasBig(g, b) && NextTable(c, At(g, b, v), g.levels - 2, dirt.value.f)
  {
  }

  lemma FreshMissing(g: Geometry, s: State, b: Path, v: nat)
    requires HasBig(g, b)
    ensures Fresh(g, s, b, v) ==> At(g, b, v)[..g.levels - 2] !in s.at
  {
  }

  // ---- What a lost entry leaves behind ----

  /**
   * The entry for the block of v has gone into a free page. If the place was fresh, the page will come back as the
   * table.
   */
  ghost predicate Owing(g: Geometry, s0: State, s1: State, b: Path, v: nat, pfn: nat, flags: nat, gone: State, x: Dirt)
    requires HasBig(g, b)
  {
    && Soiled(g, s1, gone, Some(x)) && x.i == At(g, b, v)[g.levels - 2] && x.e == Page(pfn, flags)
    && RangeStep(g, s0, gone, b, v, ENTRIES) && Unmapped(g, s0, gone, b, v, ENTRIES)
    && (Fresh(g, s0, b, v) ==> gone.at == s0.at && NextTable(gone, At(g, b, v), g.levels - 2, x.f))
  }

  /** Repaid, the block is mapped as if nothing had happened. */
  lemma Repaid(g: Geometry, s0: State, gone: State, V: State, b: Path, v: nat, pfn: nat, flags: nat)
    requires |b| < g.levels && RangeStep(g, s0, gone, b, v, ENTRIES) && Unmapped(g, s0, gone, b, v, ENTRIES)
    requires RangeStep(g, gone, V, b, v, ENTRIES) && Created(g, gone, V, b, v, ENTRIES, pfn, flags)
    ensures RangeStep(g, s0, V, b, v, ENTRIES) && Created(g, s0, V, b, v, ENTRIES, pfn, flags)
  {
    hide At;
    hide Look;
    hide Within;
    RangeStepSame(g, s0, gone, V, b, v, ENTRIES);
  }

  // ---- Fresh places beside a mapping ----

  lemma EntryOnWalk(g: Geometry, s: State, Q: Path, k: nat)
    requires Good(g, s) && IsPath(Q, g.levels) && k < g.levels && Q[..k] in s.at && Look(s, Q).Some?
    ensures Slot(s, Q[..k], Q[k]) != Absent
  {
    assert Q[..k + 1] <= Q;
    if Slot(s, Q[..k], Q[k]) == Absent {
      UnderAbsent(g, s, Q, k);
    }
  }

  lemma SlotBlank(g: Geometry, s: State, p: Path, i: nat)
    requires Good(g, s) && p in s.at && Slot(s, p, i) != Absent
    ensures !Blank(s.mem[s.at[p]])
  {
  }

  /** A table on the walk of P beside a range that is mapped keeps something. */
  lemma StaysTight(g: Geometry, s0: State, s1: State, b: Path, v: nat, n: nat, P: Path, k: nat)
    requires RangeStepOf(g, s0, s1, b, v, n) && |P| == g.levels && Tight(g, s0, b, P) && |b| < k && k + 1 < g.levels
    requires P[..k] in s1.at
    ensures !Blank(s1.mem[s1.at[P[..k]]])
  {
    hide At;
    hide Framed;
    var q := P[..k];
    if Touches(g, b, v, n, q) {
      var x: nat :| v <= x < v + n && q <= At(g, b, x);
      AtIsPath(g, b, x);
      var Q := At(g, b, x);
      assert Q[..k] == q;
      EntryOnWalk(g, s1, Q, k);
      SlotBlank(g, s1, q, Q[k]);
    } else {
      var p, i := q[..k - 1], q[k - 1];
      assert q == p + [i] && HangsUp(s1.mem, s1.at, q) && SlotKept(s0, s1, p, i);
      assert LeadsDown(s0.mem, s0.at, p, i);
      NotBlankEntry(g, s0, b, P, k);
      var j: nat :| j < ENTRIES && Slot(s0, q, j) != Absent;
      TouchesUp(g, b, v, n, q, j);
      assert SlotKept(s0, s1, q, j);
      SlotBlank(g, s1, q, j);
    }
  }

  lemma TouchesUp(g: Geometry, b: Path, v: nat, n: nat, q: Path, i: nat)
    requires |b| <= g.levels
    ensures Touches(g, b, v, n, q + [i]) ==> Touches(g, b, v, n, q)
  {
    hide At;
    if Touches(g, b, v, n, q + [i]) {
      var k: nat :| v <= k < v + n && q + [i] <= At(g, b, k);
      assert q <= At(g, b, k);
    }
  }

  /** The range is mapped in s1, and only its walks have changed. */
  ghost predicate RangeStepOf(g: Geometry, s0: State, s1: State, b: Path, v: nat, n: nat) {
    && HasBig(g, b) && IsPath(b, |b|) && RangeStep(g, s0, s1, b, v, n)
    && forall k: nat | v <= k < v + n :: Look(s1, At(g, b, k)).Some?
  }

  /** Beside a range that was mapped, a fresh place is still fresh, or its table has come to exist with an entry. */
  lemma FreshOrAnchored(g: Geometry, s0: State, s1: State, b: Path, v: nat, n: nat, w: nat)
    requires RangeStepOf(g, s0, s1, b, v, n) && Fits(g, b, v, n) && w < Pow(g.levels - |b|) && Fresh(g, s0, b, w)
    requires forall k: nat | v <= k < v + n :: k / ENTRIES != w / ENTRIES
    ensures Fresh(g, s1, b, w) || Anchored(g, s1, b, w)
  {
    hide At;
    hide Framed;
    hide Shape;
    hide Pow;
    AtIsPath(g, b, w);
    var P, d := At(g, b, w), g.levels - 2;
    if P[..d] in s1.at {
      if |b| != d {
        var k: nat := NewRegion(g, s0, s1, b, v, n, P);
        AtIsPath(g, b, k);
        var Q := At(g, b, k);
        assert Q[..d] == P[..d];
        EntryOnWalk(g, s1, Q, d);
        SameBlock(g, b, k, w);
        assert Q[..d + 1] == Q[..d] + [Q[d]] && P[..d + 1] == P[..d] + [P[d]];
      }
    } else {
      forall k: nat | |b| < k < g.levels && P[..k] in s1.at && s1.at[P[..k]] < |s1.mem|
        ensures !Blank(s1.mem[s1.at[P[..k]]])
      {
        if k > d {
          Ancestors(g, s1, P, d, k);
        } else {
          StaysTight(g, s0, s1, b, v, n, P, k);
        }
      }
    }
  }

  /** A new table is on the walk of a page of the range. */
  lemma NewRegion(g: Geometry, s0: State, s1: State, b: Path, v: nat, n: nat, P: Path) returns (k: nat)
    requires RangeStepOf(g, s0, s1, b, v, n) && |P| == g.levels
    requires P[..g.levels - 2] in s1.at && P[..g.levels - 2] !in s0.at
    ensures v <= k < v + n && P[..g.levels - 2] <= At(g, b, k)
  {
    hide At;
    hide Framed;
    var q := P[..g.levels - 2];
    assert HangsUp(s1.mem, s1.at, q);
    var p, i := q[..|q| - 1], q[|q| - 1];
    assert q == p + [i] && LeadsDown(s0.mem, s0.at, p, i);
    assert !Touches(g, b, v, n, q) ==> SlotKept(s0, s1, p, i);
    k :| v <= k < v + n && q <= At(g, b, k);
  }
}
