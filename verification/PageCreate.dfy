/** When the mapping loop is exact on a whole range, and why each of its rounds then is. */
module PageCreate {
  import opened Options
  import opened PageTree
  import opened PageRanges
  import opened PageSteps
  import opened PageOps
  import opened PageClean
  import opened PageRounds
  import opened PageMaps
  import opened PageOver
  import opened PageFresh

  /** A 2 MiB page of v that has to be split lies below 4 GiB. */
  ghost predicate Splittable(g: Geometry, s: State, b: Path, v: nat)
    requires |b| < g.levels
  {
    HasBig(g, b) && BigSlot(g, s, At(g, b, v)).Page? ==> BigSlot(g, s, At(g, b, v)).pfn < BELOW_4G
  }

  /** Mapping [v, v + n) to pfn puts the block of page w into one 2 MiB entry. */
  predicate BlockOf(g: Geometry, b: Path, v: nat, n: nat, pfn: nat, w: nat) {
    && HasBig(g, b) && v <= BlockStart(w) && BlockStart(w) + ENTRIES <= v + n
    && (pfn + (BlockStart(w) - v)) % ENTRIES == 0
  }

  /** The block behind that of w goes into the same table of 2 MiB entries, in the same mapping. */
  predicate BlockFollows(g: Geometry, b: Path, v: nat, n: nat, pfn: nat, w: nat) {
    BlockOf(g, b, v, n, pfn, w + ENTRIES) && w / ENTRIES % ENTRIES != ENTRIES - 1
  }

  /**
   * Page w does not derail the mapping of [v, v + n) to pfn: if it starts a present 2 MiB entry and is the first page
   * of the range in its table of 2 MiB entries, that table holds another entry (or is the root of the structures), or
   * it does not exist yet and another 2 MiB entry follows.
   */
  ghost predicate AnchorOkAt(g: Geometry, s: State, b: Path, v: nat, n: nat, pfn: nat, flags: nat, w: nat)
    requires |b| < g.levels
  {
    BlockOf(g, b, v, n, pfn, w) && flags % 2 == 1 && w % ENTRIES == 0 && (w == v || w / ENTRIES % ENTRIES == 0) ==>
      Anchored(g, s, b, w) || (Fresh(g, s, b, w) && BlockFollows(g, b, v, n, pfn, w))
  }

  /** No 2 MiB page of the range gets lost. Nothing is asked for if there are no 2 MiB entries. */
  ghost predicate AnchorOk(g: Geometry, s: State, b: Path, v: nat, n: nat, pfn: nat, flags: nat)
    requires |b| < g.levels
  {
    HasBig(g, b) ==> forall w: nat | v <= w < v + n :: AnchorOkAt(g, s, b, v, n, pfn, flags, w)
  }

  /** Besides, if page w goes into a 4 KiB page while its block is a 2 MiB page, that page can be split. */
  ghost predicate MapOkAt(g: Geometry, s: State, b: Path, v: nat, n: nat, pfn: nat, flags: nat, w: nat)
    requires |b| < g.levels
  {
    (!BlockOf(g, b, v, n, pfn, w) ==> Splittable(g, s, b, w)) && AnchorOkAt(g, s, b, v, n, pfn, flags, w)
  }

  /** The range can be mapped exactly. */
  ghost predicate MapOk(g: Geometry, s: State, b: Path, v: nat, n: nat, pfn: nat, flags: nat)
    requires |b| < g.levels
  {
    HasBig(g, b) ==> forall w: nat | v <= w < v + n :: MapOkAt(g, s, b, v, n, pfn, flags, w)
  }

  lemma MapOkAnchors(g: Geometry, s: State, b: Path, v: nat, n: nat, pfn: nat, flags: nat)
    requires |b| < g.levels && MapOk(g, s, b, v, n, pfn, flags)
    ensures AnchorOk(g, s, b, v, n, pfn, flags)
  {
    hide Splittable;
    hide Anchored;
    if HasBig(g, b) {
      forall w: nat | v <= w < v + n ensures AnchorOkAt(g, s, b, v, n, pfn, flags, w) {
        assert MapOkAt(g, s, b, v, n, pfn, flags, w);
      }
    }
  }

  /** After mapping the first j pages of a range; `exact` says that no split has shown. */
  ghost predicate MapInv(g: Geometry, s0: State, s: State, b: Path, v: nat, j: nat, pfn: nat, flags: nat, exact: bool)
    requires |b| < g.levels
  {
    && RangeStep(g, s0, s, b, v, j) && CreatedOver(g, s0, s, b, v, j, pfn, flags)
    && (exact ==> Created(g, s0, s, b, v, j, pfn, flags))
    && (HasBig(g, b) && j > 0 && (v + j) % ENTRIES != 0 ==> At(g, b, v + j)[..g.levels - 1] in s.at)
    && BlocksInside(g, s, b, v, j)
  }

  // ---- Tables of 2 MiB entries ----

  lemma RegionPath(g: Geometry, b: Path, v: nat)
    requires |b| + 2 <= g.levels
    ensures At(g, b, v)[..g.levels - 2] == b + PathOf(v / ENTRIES / ENTRIES, g.levels - |b| - 2)
    ensures At(g, b, v)[g.levels - 2] == v / ENTRIES % ENTRIES
  {
    BlockPath(g, b, v);
    var h := g.levels - |b| - 1;
    assert At(g, b, v)[..g.levels - 2] == At(g, b, v)[..g.levels - 1][..g.levels - 2];
    assert At(g, b, v)[g.levels - 2] == At(g, b, v)[..g.levels - 1][g.levels - 2];
    assert PathOf(v / ENTRIES, h) == PathOf(v / ENTRIES / ENTRIES, h - 1) + [v / ENTRIES % ENTRIES];
  }

  lemma OtherRegion(g: Geometry, b: Path, v: nat, w: nat)
    requires |b| + 2 <= g.levels && v < Pow(g.levels - |b|) && w < Pow(g.levels - |b|)
    requires v / ENTRIES / ENTRIES != w / ENTRIES / ENTRIES
    ensures At(g, b, v)[..g.levels - 2] != At(g, b, w)[..g.levels - 2]
  {
    var h := g.levels - |b| - 2;
    var x, y := v / ENTRIES / ENTRIES, w / ENTRIES / ENTRIES;
    PowTwice(h, v);
    PowTwice(h, w);
    RegionPath(g, b, v);
    RegionPath(g, b, w);
    RegionValues(b, x, y, h);
  }

  lemma PowTwice(h: nat, v: nat)
    requires v < Pow(h + 2)
    ensures v / ENTRIES / ENTRIES < Pow(h)
  {
    assert Pow(h + 2) == ENTRIES * Pow(h + 1) && Pow(h + 1) == ENTRIES * Pow(h);
  }

  lemma RegionValues(b: Path, x: nat, y: nat, h: nat)
    requires x < Pow(h) && y < Pow(h) && x != y
    ensures b + PathOf(x, h) != b + PathOf(y, h)
  {
    hide PathOf;
    hide Pow;
    ValueOfPath(x, h);
    ValueOfPath(y, h);
    assert (b + PathOf(x, h))[|b|..] == PathOf(x, h) && (b + PathOf(y, h))[|b|..] == PathOf(y, h);
  }

  // ---- The round at page v + j ----

  /** A block that starts where the mapped part of the range ends still has its old entry. */
  lemma SameBigSlot(g: Geometry, s0: State, s: State, b: Path, v: nat, j: nat, n: nat)
    requires HasBig(g, b) && Fits(g, b, v, n) && j < n && RangeStep(g, s0, s, b, v, j)
    requires j == 0 || (v + j) % ENTRIES == 0
    ensures |At(g, b, v + j)| == g.levels && BigSlot(g, s, At(g, b, v + j)) == BigSlot(g, s0, At(g, b, v + j))
  {
    hide At;
    hide Good;
    hide Framed;
    var w := v + j;
    AtIsPath(g, b, w);
    var P, d := At(g, b, w), g.levels - 2;
    if Touches(g, b, v, j, P[..d] + [P[d]]) {
      var k: nat :| v <= k < v + j && P[..d] + [P[d]] <= At(g, b, k);
      OtherBlock(g, b, k, w);
    }
    assert SlotKept(s0, s, P[..d], P[d]);
  }

  /** The table of 2 MiB entries of page w is not on the walk of a page in another region. */
  lemma UntouchedRegion(g: Geometry, b: Path, v: nat, j: nat, w: nat, i: nat)
    requires HasBig(g, b) && Fits(g, b, v, j) && w == v + j < Pow(g.levels - |b|)
    requires j == 0 || (w % ENTRIES == 0 && w / ENTRIES % ENTRIES == 0)
    ensures |At(g, b, w)| == g.levels && !Touches(g, b, v, j, At(g, b, w)[..g.levels - 2] + [i])
  {
    hide At;
    hide Pow;
    AtIsPath(g, b, w);
    var q, d := At(g, b, w)[..g.levels - 2] + [i], g.levels - 2;
    assert q[..d] == At(g, b, w)[..d];
    forall k: nat | v <= k < v + j ensures !(q <= At(g, b, k)) {
      AtIsPath(g, b, k);
      OtherRegion(g, b, k, w);
    }
  }

  /** The first page of the range in a table of 2 MiB entries: another entry there is still there. */
  lemma AnchorKept(g: Geometry, s0: State, s: State, b: Path, v: nat, j: nat, n: nat)
    requires HasBig(g, b) && Fits(g, b, v, n) && j < n && RangeStep(g, s0, s, b, v, j)
    requires j == 0 || ((v + j) % ENTRIES == 0 && (v + j) / ENTRIES % ENTRIES == 0)
    requires Anchored(g, s0, b, v + j)
    ensures Anchored(g, s, b, v + j)
  {
    hide At;
    hide Good;
    hide Framed;
    var w, d := v + j, g.levels - 2;
    AtIsPath(g, b, w);
    var P := At(g, b, w);
    if |b| != d {
      var i: nat :| i != P[d] && Slot(s0, P[..d], i) != Absent;
      UntouchedRegion(g, b, v, j, w, i);
      assert SlotKept(s0, s, P[..d], i);
    }
  }

  /** Any other page: the entry for the page before it is in the same table. */
  lemma AnchorPrevious(g: Geometry, s: State, b: Path, w: nat)
    requires HasBig(g, b) && Good(g, s) && IsPath(b, |b|) && 0 < w < Pow(g.levels - |b|)
    requires w % ENTRIES == 0 && w / ENTRIES % ENTRIES != 0
    requires IsPath(At(g, b, w - 1), g.levels) && Look(s, At(g, b, w - 1)).Some?
    ensures Anchored(g, s, b, w)
  {
    hide At;
    hide Good;
    AtIsPath(g, b, w);
    var P, Q, d := At(g, b, w), At(g, b, w - 1), g.levels - 2;
    BigLookup(g, s, Q);
    RegionPath(g, b, w);
    RegionPath(g, b, w - 1);
    RegionArithmetic(w);
    assert Q[..d] == P[..d] && Q[d] != P[d] && Slot(s, P[..d], Q[d]) != Absent;
  }

  lemma RegionArithmetic(w: nat)
    requires 0 < w && w % ENTRIES == 0 && w / ENTRIES % ENTRIES != 0
    ensures (w - 1) / ENTRIES / ENTRIES == w / ENTRIES / ENTRIES && (w - 1) / ENTRIES % ENTRIES != w / ENTRIES % ENTRIES
  {
  }

  /** The round at page v + j loses nothing, and if the range can be mapped exactly, it splits below 4 GiB. */
  lemma MapOkHere(g: Geometry, s0: State, s: State, b: Path, v: nat, j: nat, n: nat, pfn: nat, flags: nat, exact: bool)
    requires Fits(g, b, v, n) && j < n && MapInv(g, s0, s, b, v, j, pfn, flags, exact)
    requires AnchorOk(g, s0, b, v, n, pfn, flags) && (exact ==> MapOk(g, s0, b, v, n, pfn, flags))
    ensures !TakesBlock(g, b, v + j, n - j, pfn + j) && exact ==> Splittable(g, s, b, v + j)
    ensures TakesBlock(g, b, v + j, n - j, pfn + j) && flags % 2 == 1 ==>
              Anchored(g, s, b, v + j) || (Fresh(g, s, b, v + j) && BlockFollows(g, b, v, n, pfn, v + j))
  {
    hide At;
    hide Framed;
    hide Kept;
    hide Anchored;
    hide Fresh;
    hide Shape;
    hide CreatedOver;
    hide Created;
    var w := v + j;
    if HasBig(g, b) {
      assert AnchorOkAt(g, s0, b, v, n, pfn, flags, w);
      assert exact ==> MapOkAt(g, s0, b, v, n, pfn, flags, w);
      AtIsPath(g, b, w);
      if j > 0 && w % ENTRIES != 0 {
        BigLookup(g, s, At(g, b, w));
      } else {
        SameBigSlot(g, s0, s, b, v, j, n);
        assert j == 0 || w % ENTRIES == 0;
        assert TakesBlock(g, b, w, n - j, pfn + j) <==> BlockOf(g, b, v, n, pfn, w);
        if TakesBlock(g, b, w, n - j, pfn + j) && flags % 2 == 1 {
          MapOkAnchored(g, s0, s, b, v, j, n, pfn, flags, exact);
        }
      }
    }
  }

  lemma MapOkAnchored(g: Geometry, s0: State, s: State, b: Path, v: nat, j: nat, n: nat, pfn: nat, flags: nat,
                      exact: bool)
    requires HasBig(g, b) && Fits(g, b, v, n) && j < n && MapInv(g, s0, s, b, v, j, pfn, flags, exact) && flags % 2 == 1
    requires AnchorOkAt(g, s0, b, v, n, pfn, flags, v + j) && BlockOf(g, b, v, n, pfn, v + j) && (v + j) % ENTRIES == 0
    ensures Anchored(g, s, b, v + j) || (Fresh(g, s, b, v + j) && BlockFollows(g, b, v, n, pfn, v + j))
  {
    hide At;
    hide Framed;
    hide Kept;
    hide Anchored;
    hide Fresh;
    hide Shape;
    hide Pow;
    hide Redirected;
    var w := v + j;
    if j == 0 || w / ENTRIES % ENTRIES == 0 {
      if Anchored(g, s0, b, w) {
        AnchorKept(g, s0, s, b, v, j, n);
      } else {
        FreshOrAnchored(g, s0, s, b, v, j, w);
      }
    } else {
      AtIsPath(g, b, w - 1);
      assert Look(s, At(g, b, w - 1)) == Mapped(pfn + (w - 1 - v), flags);
      AnchorPrevious(g, s, b, w);
    }
  }

  // ---- Rounds put together ----

  lemma CalmThenUnmap(g: Geometry, s0: State, s1: State, s2: State, b: Path, P: Path, v: nat, n: nat)
    requires |b| <= g.levels && Calm(g, s0, s1, b, P) && [] in s2.at && Unmapped(g, s1, s2, b, v, n)
    ensures Unmapped(g, s0, s2, b, v, n)
  {
    hide At;
    hide Good;
    hide Framed;
    hide KeptBeside;
    hide Lookup;
  }

  lemma AnchoredCalm(g: Geometry, s0: State, s1: State, b: Path, v: nat)
    requires HasBig(g, b) && IsPath(b, |b|) && KeptBeside(g, s0, s1, At(g, b, v))
    ensures Anchored(g, s0, b, v) <==> Anchored(g, s1, b, v)
  {
    hide At;
    AtIsPath(g, b, v);
    var P, d := At(g, b, v), g.levels - 2;
    forall i: nat | i != P[d] ensures Slot(s1, P[..d], i) == Slot(s0, P[..d], i) {
      assert (P[..d] + [i])[d] == i;
      assert SlotKept(s0, s1, P[..d], i);
    }
  }

  /** A single block can always be unmapped exactly. */
  lemma BlockClean(g: Geometry, s: State, b: Path, v: nat)
    requires |b| <= g.levels && [] in s.at && v % ENTRIES == 0
    ensures Clean(g, s, b, v, ENTRIES, false)
  {
    if HasBig(g, b) {
      forall w: nat | v <= w < v + ENTRIES ensures CleanAt(g, s, b, v, ENTRIES, false, w) {
        assert BlockStart(w) == v;
      }
    }
  }

  /** What a clean range means for the round at its first page. */
  lemma CleanFirst(g: Geometry, s: State, b: Path, v: nat, n: nat, split: bool)
    requires |b| < g.levels && [] in s.at && n > 0 && Clean(g, s, b, v, n, split)
    ensures n < ENTRIES ==> Splittable(g, s, b, v)
    ensures n < ENTRIES && !split ==> !(HasBig(g, b) && BigSlot(g, s, At(g, b, v)).Page?)
  {
    hide At;
    if HasBig(g, b) {
      assert CleanAt(g, s, b, v, n, split, v);
    }
  }

  /** The 2 MiB entry went into a page that was released before: the block is unmapped and a free page is dirty. */
  ghost predicate Lost(g: Geometry, s0: State, s1: State, b: Path, v: nat)
    requires |b| <= g.levels
  {
    && Shape(g, s1.mem, s1.at) && Unmapped(g, s0, s1, b, v, ENTRIES)
    && exists f: nat :: f < |s1.mem| && f !in s1.used && !Blank(s1.mem[f])
  }

  lemma BlockLost(g: Geometry, s: State, s2: State, s3: State, b: Path, v: nat, t: nat, i: nat, e: Pte)
    requires HasBig(g, b) && IsPath(b, |b|) && Spot(g, s, b, v, g.levels - 2) && t == TableAt(g, s, b, v, g.levels - 2)
    requires RangeStep(g, s, s2, b, v, ENTRIES) && Shrunk(s, s2) && Unmapped(g, s, s2, b, v, ENTRIES)
    requires At(g, b, v)[..g.levels - 2] !in s2.at && i < ENTRIES && !e.Absent?
    requires t < |s2.mem| && |s2.mem[t]| == ENTRIES && s3 == s2.(mem := Put(s2.mem, t, i, e))
    ensures Lost(g, s, s3, b, v)
  {
    hide At;
    hide Kept;
    hide Lookup;
    Released(g, s, s2, At(g, b, v)[..g.levels - 2], t);
    ForeignWrite(g, s2.mem, s2.at, t, i, e);
    assert s3.mem[t][i] == e;
    forall k: nat | v <= k < v + ENTRIES ensures Look(s3, At(g, b, k)) == None {
      AtIsPath(g, b, k);
    }
  }

  lemma Released(g: Geometry, s: State, s2: State, p: Path, t: nat)
    requires Good(g, s) && Good(g, s2) && Framed(s, s2) && Shrunk(s, s2) && p in s.at && s.at[p] == t && p !in s2.at
    ensures t !in s2.at.Values && t !in s2.used
  {
    assert t in s.at.Values;
    forall q | q in s2.at ensures s2.at[q] != t {
      assert s2.at[q] == s.at[q];
    }
    assert t !in s.used - s.at.Values;
  }

  /** After one page more. */
  lemma MapInvPage(g: Geometry, s0: State, s: State, s1: State, b: Path, v: nat, j: nat, n: nat, pfn: nat, flags: nat,
                   exact: bool)
    requires Fits(g, b, v, n) && j < n && MapInv(g, s0, s, b, v, j, pfn, flags, exact)
    requires Step(g, s, s1, b, At(g, b, v + j)) && NoNewBig(g, s, s1)
    requires CreatedOver(g, s, s1, b, v + j, 1, pfn + j, flags) && (exact ==> Splittable(g, s, b, v + j))
    requires HasBig(g, b) ==> At(g, b, v + j)[..g.levels - 1] in s1.at
    ensures MapInv(g, s0, s1, b, v, j + 1, pfn, flags, exact)
  {
    hide At;
    hide Good;
    hide Framed;
    hide Kept;
    hide KeptBeside;
    hide Lookup;
    hide Pow;
    hide CreatedOver;
    hide Created;
    RangeStepOne(g, s0, s, s1, b, v, j, j + 1, v + j);
    OverPage(g, s0, s, s1, b, v, j, pfn, flags);
    if exact {
      OneExact(g, s, s1, b, v + j, pfn + j, flags);
      CreatedChain(g, s0, s, s1, b, v, j, j + 1, pfn, flags);
    }
    if HasBig(g, b) {
      BlocksInsidePage(g, s, s1, b, v, j);
      if (v + j + 1) % ENTRIES != 0 {
        NextInBlock(g, b, v + j);
      }
    }
  }

  lemma OneExact(g: Geometry, s: State, s1: State, b: Path, v: nat, pfn: nat, flags: nat)
    requires Good(g, s) && Fits(g, b, v, 1) && CreatedOver(g, s, s1, b, v, 1, pfn, flags) && Splittable(g, s, b, v)
    ensures Created(g, s, s1, b, v, 1, pfn, flags)
  {
    hide At;
    hide Good;
    hide CreatedOver;
    hide Created;
    hide BigSlot;
    MapExactIff(g, s, s1, b, v, 1, pfn, flags);
  }

  lemma BlocksInsidePage(g: Geometry, s: State, s1: State, b: Path, v: nat, j: nat)
    requires HasBig(g, b) && IsPath(b, |b|) && Good(g, s1) && BlocksInside(g, s, b, v, j) && NoNewBig(g, s, s1)
    requires At(g, b, v + j)[..g.levels - 1] in s1.at
    ensures BlocksInside(g, s1, b, v, j + 1)
  {
    hide At;
    hide Good;
    hide Slot;
    forall w: nat | v <= w < v + (j + 1) && BigSlot(g, s1, At(g, b, w)).Page?
      ensures v <= BlockStart(w) && BlockStart(w) + ENTRIES <= v + (j + 1)
    {
      AtIsPath(g, b, w);
      BigLookup(g, s1, At(g, b, w));
    }
  }

  lemma BlocksInsideBlock(g: Geometry, s: State, s1: State, b: Path, v: nat, j: nat)
    requires HasBig(g, b) && Fits(g, b, v, j + ENTRIES) && BlocksInside(g, s, b, v, j) && (v + j) % ENTRIES == 0
    requires NewBigInside(g, s, s1, b, v + j, ENTRIES)
    ensures BlocksInside(g, s1, b, v, j + ENTRIES)
  {
    hide At;
    hide Slot;
    hide Pow;
    forall w: nat | v <= w < v + (j + ENTRIES) && BigSlot(g, s1, At(g, b, w)).Page?
      ensures v <= BlockStart(w) && BlockStart(w) + ENTRIES <= v + (j + ENTRIES)
    {
      AtIsPath(g, b, w);
      if w >= v + j {
        AlignedBlock(v + j, w);
      } else if Inside(g, b, v + j, ENTRIES, At(g, b, w)) {
        InsideBlock(g, b, v + j, w);
      }
    }
  }

  lemma InsideBlock(g: Geometry, b: Path, u: nat, w: nat)
    requires HasBig(g, b) && Fits(g, b, u, ENTRIES) && w < Pow(g.levels - |b|) && |At(g, b, w)| == g.levels
    requires Inside(g, b, u, ENTRIES, At(g, b, w))
    ensures BlockStart(w) == u
  {
    hide PathOf;
    hide Pow;
    var x: nat :| u <= BlockStart(x) && BlockStart(x) + ENTRIES <= u + ENTRIES
                  && At(g, b, w)[..g.levels - 1] == At(g, b, x)[..g.levels - 1];
    SameBlock(g, b, w, x);
  }

  lemma NextInBlock(g: Geometry, b: Path, w: nat)
    requires HasBig(g, b) && (w + 1) % ENTRIES != 0
    ensures At(g, b, w + 1)[..g.levels - 1] == At(g, b, w)[..g.levels - 1]
  {
    BlockPath(g, b, w);
    BlockPath(g, b, w + 1);
    assert (w + 1) / ENTRIES == w / ENTRIES;
  }

  /** After one 2 MiB entry more. */
  lemma MapInvBlock(g: Geometry, s0: State, s: State, s1: State, b: Path, v: nat, j: nat, n: nat, pfn: nat, flags: nat,
                    exact: bool)
    requires HasBig(g, b) && Fits(g, b, v, n) && j + ENTRIES <= n && (v + j) % ENTRIES == 0
    requires MapInv(g, s0, s, b, v, j, pfn, flags, exact)
    requires RangeStep(g, s, s1, b, v + j, ENTRIES) && Created(g, s, s1, b, v + j, ENTRIES, pfn + j, flags)
    ensures MapInv(g, s0, s1, b, v, j + ENTRIES, pfn, flags, exact)
  {
    hide At;
    hide Good;
    hide Framed;
    hide Kept;
    hide KeptBeside;
    hide Lookup;
    hide Pow;
    hide CreatedOver;
    hide Created;
    RangeStepChain(g, s0, s, s1, b, v, j, j + ENTRIES);
    OverBlock(g, s0, s, s1, b, v, j, pfn, flags);
    if exact {
      CreatedChain(g, s0, s, s1, b, v, j, j + ENTRIES, pfn, flags);
    }
    BlocksInsideBlock(g, s, s1, b, v, j);
  }

  // ---- Facts that the loops take from a round ----

  lemma DescendedFacts(g: Geometry, s0: State, s: State, b: Path, v: nat, n: nat, d: nat)
    requires |b| < g.levels && Descended(g, s0, s, b, v, n, d)
    ensures Good(g, s) && Spot(g, s, b, v, d) && d < g.levels && |At(g, b, v)| == g.levels
    ensures !EntryAt(g, s, b, v, d).Next?
    ensures (if g.PageSize(d) > 0 then g.PageSize(d) else 1) == if HasBig(g, b) && d == g.levels - 2 then ENTRIES else 1
  {
  }

  lemma SpotRooted(g: Geometry, s: State, b: Path, v: nat, d: nat)
    requires Spot(g, s, b, v, d)
    ensures b in s.at
  {
    assert At(g, b, v)[..|b|] == b;
  }

  /** A round, with or without a split before it. */
  lemma PresplitRound(g: Geometry, s0: State, s: State, s1: State, b: Path, v: nat, n: nat, k: nat)
    requires |b| < g.levels && IsPath(b, |b|) && Presplit(g, s0, s, b, v) && (s != s0 <==> NeedsSplit(g, s0, b, v, n))
    requires Round(g, s, s1, b, v, n, k)
    ensures SplitRound(g, s0, s1, b, v, n, k) && Good(g, s1) && [] in s1.at && k > 0
    ensures b in s0.at && b in s1.at && s1.at[b] == s0.at[b]
    ensures (n < ENTRIES ==> Splittable(g, s0, b, v)) ==> Round(g, s0, s1, b, v, n, k)
  {
    hide At;
    hide Good;
    hide Framed;
    hide KeptBeside;
    hide SameOutside;
    hide Look;
    hide StepsBlock;
    if s != s0 && Splittable(g, s0, b, v) {
      RoundThroughSplit(g, s0, s, s1, b, v, n, k);
    }
  }

  lemma PresplitFacts(g: Geometry, s0: State, mid: State, b: Path, v: nat)
    requires |b| < g.levels && Presplit(g, s0, mid, b, v) && [] in mid.at && b in mid.at && (mid == s0 ==> [] in s0.at)
    ensures [] in s0.at && b in s0.at && mid.at[b] == s0.at[b]
  {
    hide At;
    hide Good;
  }

  lemma ClearedFacts(g: Geometry, s0: State, s1: State, b: Path, P: Path, d: nat)
    requires d < g.levels == |P| && Cleared(g, s0, s1, b, P, d)
    ensures Shrunk(s0, s1)
  {
  }

  lemma UnmappedNone(g: Geometry, s: State, b: Path, v: nat)
    requires |b| <= g.levels && [] in s.at
    ensures Unmapped(g, s, s, b, v, 0)
  {
  }

  lemma RoundFacts(g: Geometry, s: State, s1: State, b: Path, v: nat, n: nat, k: nat, split: bool)
    requires Fits(g, b, v, n) && n > 0 && Round(g, s, s1, b, v, n, k) && [] in s.at && Clean(g, s, b, v, n, split)
    ensures Step(g, s, s1, b, At(g, b, v)) && NoNewBig(g, s, s1)
    ensures k > 0 && (k == ENTRIES && k <= n ==> v % ENTRIES == 0)
  {
    hide Clean;
    hide Step;
    RoundAligned(g, s, s1, b, v, n, k, split);
  }

  // ---- The unmapping loop on a clean range ----

  /** Some page of the range has no empty table left on its walk. */
  ghost predicate TightIn(g: Geometry, s: State, b: Path, v: nat, n: nat)
    requires |b| <= g.levels
  {
    exists w: nat :: v <= w < v + n && Tight(g, s, b, At(g, b, w))
  }

  lemma TightPage(g: Geometry, s: State, b: Path, v: nat, n: nat) returns (w: nat)
    requires |b| <= g.levels && TightIn(g, s, b, v, n)
    ensures v <= w < v + n && Tight(g, s, b, At(g, b, w))
  {
    w :| v <= w < v + n && Tight(g, s, b, At(g, b, w));
  }

  /** After unmapping the first j pages of a clean range. */
  ghost predicate UnmapInv(g: Geometry, s0: State, s: State, b: Path, v: nat, n: nat, j: nat, split: bool)
    requires |b| < g.levels
  {
    && j <= n && RangeStep(g, s0, s, b, v, j) && Unmapped(g, s0, s, b, v, j)
    && (j < n ==> Clean(g, s, b, v + j, n - j, split)) && (!split ==> Shrunk(s0, s))
    && (j > 0 ==> TightIn(g, s, b, v, n))
  }

  lemma UnmapStart(g: Geometry, s: State, b: Path, v: nat, n: nat, split: bool)
    requires |b| < g.levels && Good(g, s) && b in s.at
    ensures Clean(g, s, b, v, n, split) ==> UnmapInv(g, s, s, b, v, n, 0, split)
  {
    hide At;
    hide Clean;
    RangeStepSelf(g, s, b, v);
    UnmappedNone(g, s, b, v);
  }

  /** The next round needs no split above 4 GiB, and if it fails, all is as far as it got. */
  lemma UnmapHere(g: Geometry, s0: State, s: State, b: Path, v: nat, n: nat, j: nat, split: bool)
    requires |b| < g.levels && j < n && UnmapInv(g, s0, s, b, v, n, j, split)
    ensures n - j < ENTRIES ==> Splittable(g, s, b, v + j)
    ensures !split ==> !NeedsSplit(g, s, b, v + j, n - j)
    ensures RangeStep(g, s0, s, b, v, n) && Unmapped(g, s0, s, b, v, j) && (!split ==> Shrunk(s0, s))
  {
    hide At;
    hide Good;
    hide Framed;
    hide Kept;
    hide Clean;
    hide Unmapped;
    hide TightIn;
    CleanFirst(g, s, b, v + j, n - j, split);
    RangeStepMore(g, s0, s, b, v, j, n);
  }

  lemma UnmapStep(g: Geometry, s0: State, s: State, s1: State, b: Path, v: nat, n: nat, j: nat, k: nat, split: bool)
    requires Fits(g, b, v, n) && j < n && UnmapInv(g, s0, s, b, v, n, j, split) && Round(g, s, s1, b, v + j, n - j, k)
    requires Tight(g, s1, b, At(g, b, v + j)) && (!split ==> Shrunk(s, s1))
    ensures if k <= n - j then UnmapInv(g, s0, s1, b, v, n, j + k, split) else UnmapInv(g, s0, s1, b, v, n, n, split)
  {
    hide At;
    hide Good;
    hide Framed;
    hide Kept;
    hide Clean;
    hide Unmapped;
    hide Round;
    hide Tight;
    AtIsPath(g, b, v + j);
    RoundFacts(g, s, s1, b, v + j, n - j, k, split);
    if k > n - j {
      RangeStepOne(g, s0, s, s1, b, v, j, n, v + j);
      RoundLast(g, s, s1, b, v + j, n - j, k, split);
      UnmappedChain(g, s0, s, s1, b, v, j, n);
    } else {
      RangeStepOne(g, s0, s, s1, b, v, j, j + k, v + j);
      RoundUnmaps(g, s, s1, b, v + j, n - j, k);
      UnmappedChain(g, s0, s, s1, b, v, j, j + k);
      if k < n - j {
        CleanNext(g, s, s1, b, v + j, n - j, k, split);
      }
    }
  }

  lemma UnmapEnd(g: Geometry, s0: State, s: State, b: Path, v: nat, n: nat, split: bool)
    requires |b| < g.levels && UnmapInv(g, s0, s, b, v, n, n, split)
    ensures RangeStep(g, s0, s, b, v, n) && Unmapped(g, s0, s, b, v, n) && (!split ==> Shrunk(s0, s))
    ensures n > 0 ==> TightIn(g, s, b, v, n)
  {
  }

  // ---- Preparations on the way down of a mapping ----

  /** Calm preparations do not hide a 2 MiB page. */
  lemma NoPageThere(g: Geometry, s0: State, s: State, b: Path, v: nat)
    requires HasBig(g, b) && IsPath(b, |b|) && Calm(g, s0, s, b, At(g, b, v)) && Spot(g, s, b, v, g.levels - 2)
    requires s == s0 || EntryAt(g, s, b, v, g.levels - 2).Absent?
    ensures BigSlot(g, s0, At(g, b, v)).Page? ==> s == s0 && EntryAt(g, s, b, v, g.levels - 2).Page?
  {
    hide At;
    hide Good;
    hide Framed;
    hide KeptBeside;
    hide Lookup;
    AtIsPath(g, b, v);
    var P := At(g, b, v);
    if BigSlot(g, s0, P).Page? && s != s0 {
      UnderBigPage(g, s0, P);
      assert P[..g.levels - 1] <= P;
      WalkEnd(g, s, b, v, g.levels - 2);
    }
  }

  lemma GrowOnWay(g: Geometry, s0: State, s: State, s1: State, b: Path, v: nat, d: nat, f: nat)
    requires Good(g, s) && Spot(g, s, b, v, d) && EntryAt(g, s, b, v, d).Absent? && d + 1 < g.levels
    requires f < |s.mem| && f !in s.used && Calm(g, s0, s, b, At(g, b, v))
    requires TableAt(g, s, b, v, d) < |s.mem| && At(g, b, v)[d] < |s.mem[TableAt(g, s, b, v, d)]|
    requires s1 == Hung(s, At(g, b, v), d, f)
    ensures Good(g, s1) && Calm(g, s0, s1, b, At(g, b, v)) && Spot(g, s1, b, v, d + 1)
    ensures TableAt(g, s1, b, v, d + 1) == f && EntryAt(g, s1, b, v, d + 1).Absent?
    ensures f < |s1.mem| && Blank(s1.mem[f]) && At(g, b, v)[..d + 1] !in s.at
  {
    hide At;
    hide Shape;
    hide Framed;
    hide KeptBeside;
    hide SameLookups;
    var P := At(g, b, v);
    HangTable(g, s, b, P, d, f);
    CalmChain(g, s0, s, s1, b, P);
    HungBlank(g, s, s1, P, d, f);
    NothingBelow(g, s, P, d, d + 1);
  }

  /** On the way down to table t at depth d, the dirty page is still free, or it is the last table. */
  ghost predicate DirtAhead(g: Geometry, h: State, d: nat, t: nat, dirt: Option<Dirt>) {
    dirt.Some? ==> Fitting(h, dirt.value) && if d < g.levels - 2 then dirt.value.f !in h.used
                                             else t == dirt.value.f && Blank(h.mem[t])
  }

  lemma DirtStart(g: Geometry, c: State, P: Path, d: nat, t: nat, dirt: Option<Dirt>)
    requires d < g.levels == |P| && P[..d] in c.at
    requires dirt.Some? ==> Fitting(c, dirt.value) && dirt.value.f !in c.used && d <= g.levels - 2
                            && NextTable(c, P, g.levels - 2, dirt.value.f)
    ensures DirtAhead(g, c, d, t, dirt) && (dirt.Some? ==> d < g.levels - 2)
  {
    if dirt.Some? {
      TableMissing(c, P, g.levels - 2, dirt.value.f);
    }
  }

  /** On the way, the table at p is read as it should be. */
  lemma DirtElsewhere(g: Geometry, s: State, p: Path, d: nat, dirt: Option<Dirt>)
    requires Good(g, s) && p in s.at && DirtAhead(g, s, d, s.at[p], dirt) && (dirt.Some? ==> d < g.levels - 2)
    ensures dirt.Some? ==> Fitting(s, dirt.value) && dirt.value.f !in s.used && dirt.value.f != s.at[p]
    ensures Soil(s, dirt).at == s.at && Soil(s, dirt).used == s.used && |Soil(s, dirt).mem| == |s.mem|
    ensures (dirt.None? ==> Soil(s, dirt) == s) && s.at[p] < |s.mem| && Soil(s, dirt).mem[s.at[p]] == s.mem[s.at[p]]
  {
    TableUsed(g, s, p);
    SoilElsewhere(s, dirt, s.at[p]);
  }

  lemma DirtEnd(g: Geometry, h: State, d: nat, t: nat, dirt: Option<Dirt>)
    requires DirtAhead(g, h, d, t, dirt) && (dirt.Some? ==> d == g.levels - 2)
    ensures dirt.Some? ==> t == dirt.value.f && t < |h.mem| && Blank(h.mem[t])
  {
  }

  lemma DirtNext(g: Geometry, c: State, b: Path, v: nat, d: nat, t: nat, f: nat, dirt: Option<Dirt>)
    requires |b| <= g.levels && d < g.levels && DirtAhead(g, c, d, t, dirt) && At(g, b, v)[..d + 1] in c.at
    requires dirt.Some? ==> d < g.levels - 2 && NextTable(c, At(g, b, v), g.levels - 2, dirt.value.f)
    ensures DirtAhead(g, c, d + 1, f, dirt)
  {
    if dirt.Some? {
      TableMissing(c, At(g, b, v), g.levels - 2, dirt.value.f);
    }
  }

  /** The same, with an entry in a free page, which may be the one that becomes the new table. */
  lemma HangOnWay(g: Geometry, c: State, mid: State, s: State, h: State, b: Path, v: nat, d: nat, f: nat,
                  dirt: Option<Dirt>, takes: bool)
    requires Good(g, c) && Good(g, s) && Spot(g, s, b, v, d) && EntryAt(g, s, b, v, d).Absent? && d + 1 < g.levels
    requires f < |s.mem| && f !in s.used && (forall p: nat | p < f :: p in s.used) && Calm(g, mid, s, b, At(g, b, v))
    requires TableAt(g, s, b, v, d) < |s.mem| && At(g, b, v)[d] < |s.mem[TableAt(g, s, b, v, d)]|
    requires h == Hung(s, At(g, b, v), d, f) && (takes ==> Grown(c, s, At(g, b, v), d))
    requires DirtAhead(g, s, d, TableAt(g, s, b, v, d), dirt)
    requires dirt.Some? ==> takes && d < g.levels - 2 && NextTable(c, At(g, b, v), g.levels - 2, dirt.value.f)
    ensures Good(g, h) && Calm(g, mid, h, b, At(g, b, v)) && Spot(g, h, b, v, d + 1)
    ensures TableAt(g, h, b, v, d + 1) == f && EntryAt(g, h, b, v, d + 1).Absent?
    ensures (takes ==> Grown(c, h, At(g, b, v), d + 1))
    ensures var t := TableAt(g, s, b, v, d);
            && |Soil(s, dirt).mem| == |s.mem| && Soil(s, dirt).mem[t] == s.mem[t] && Soil(s, dirt).used == s.used
            && h.at == s.at[At(g, b, v)[..d + 1] := f]
            && Soil(h, dirt) == State(Put(Soil(s, dirt).mem, t, At(g, b, v)[d], Next(f)), s.used + {f}, h.at)
    ensures DirtAhead(g, h, d + 1, f, dirt)
  {
    hide At;
    hide Shape;
    hide Calm;
    hide Grown;
    hide NextTable;
    hide OnWalk;
    var P := At(g, b, v);
    SpotFacts(g, s, b, v, d);
    GrowOnWay(g, mid, s, h, b, v, d, f);
    TableUsed(g, s, P[..d]);
    SoilHung(s, dirt, h, P, d, f);
    if takes {
      GrownMore(c, s, h, P, d, f);
      if dirt.Some? {
        FirstFitHere(g, c, s, P, d, g.levels - 2, f, dirt.value.f);
      }
    }
  }

  /**
   * The way down of a mapping has got from c to table t at depth d, on which a 2 MiB page may have been split, and the
   * state is h but for the dirt; `takes` says that it will stop at the level of 2 MiB entries.
   */
  ghost predicate Descending(g: Geometry, c: State, mid: State, h: State, b: Path, v: nat, d: nat, t: nat,
                             dirt: Option<Dirt>, takes: bool)
  {
    && |b| <= d < g.levels && Good(g, h) && Spot(g, h, b, v, d) && t == TableAt(g, h, b, v, d)
    && Presplit(g, c, mid, b, v) && (mid != c ==> d == g.levels - 1) && Calm(g, mid, h, b, At(g, b, v))
    && (HasBig(g, b) && d == g.levels - 1 && mid == c ==> !BigSlot(g, c, At(g, b, v)).Page?)
    && (h == c || (d > |b| && (d == g.levels - 1 || EntryAt(g, h, b, v, d).Absent?)))
    && (takes ==> Grown(c, h, At(g, b, v), d)) && DirtAhead(g, h, d, t, dirt)
  }

  /** What the way starts from: a well-formed state, and dirt only in a page that will become the last table. */
  ghost predicate Departs(g: Geometry, c: State, b: Path, v: nat, dirt: Option<Dirt>, takes: bool) {
    && Good(g, c) && IsPath(b, |b|) && b in c.at && |b| < g.levels
    && (takes ==> HasBig(g, b))
    && (dirt.Some? ==> takes && Fitting(c, dirt.value) && dirt.value.f !in c.used
                       && NextTable(c, At(g, b, v), g.levels - 2, dirt.value.f))
  }

  lemma DepartsNow(g: Geometry, s: State, c: State, b: Path, v: nat, dirt: Option<Dirt>, takes: bool)
    requires Soiled(g, s, c, dirt) && IsPath(b, |b|) && b in s.at && |b| < g.levels && (takes ==> HasBig(g, b))
    requires dirt.Some? ==> takes && NextTable(c, At(g, b, v), g.levels - 2, dirt.value.f)
    ensures Departs(g, c, b, v, dirt, takes) && s == Soil(c, dirt) && s.at == c.at && s.used == c.used
  {
    SoilElsewhere(c, dirt, 0);
  }

  lemma DescendStart(g: Geometry, c: State, b: Path, v: nat, dirt: Option<Dirt>, takes: bool)
    requires Departs(g, c, b, v, dirt, takes)
    ensures Descending(g, c, c, c, b, v, |b|, c.at[b], dirt, takes) && Soil(c, dirt).at == c.at
    ensures (takes ==> |b| <= g.levels - 2) && At(g, b, v)[..|b|] in c.at
  {
    hide At;
    hide Good;
    hide Calm;
    hide Grown;
    hide NextTable;
    hide OnWalk;
    var P := At(g, b, v);
    WalkStart(g, c, b, v);
    StepSelf(g, c, b, P);
    SpotFacts(g, c, b, v, |b|);
    GrownStart(c, P, |b|);
    DirtStart(g, c, P, |b|, c.at[b], dirt);
  }

  /** What is read on the way. */
  lemma DescendRead(g: Geometry, c: State, mid: State, h: State, b: Path, v: nat, d: nat, t: nat, dirt: Option<Dirt>,
                    takes: bool)
    requires Departs(g, c, b, v, dirt, takes) && Descending(g, c, mid, h, b, v, d, t, dirt, takes)
    requires d < g.levels - if takes then 2 else 1
    ensures t < |h.mem| && |h.mem[t]| == ENTRIES && Index(g, v, d) < ENTRIES && At(g, b, v)[d] == Index(g, v, d)
    ensures h.mem[t][Index(g, v, d)] == EntryAt(g, h, b, v, d) && Spot(g, h, b, v, d) && t == TableAt(g, h, b, v, d)
    ensures Soiled(g, Soil(h, dirt), h, dirt) && (dirt.Some? ==> dirt.value.f != t) && mid == c
    ensures |Soil(h, dirt).mem| == |h.mem| && Soil(h, dirt).mem[t] == h.mem[t]
    ensures Soil(h, dirt).used == h.used && Soil(h, dirt).at == h.at && (dirt.None? ==> Soil(h, dirt) == h)
    ensures EntryAt(g, h, b, v, d).Page? ==> HasBig(g, b) && d == g.levels - 2 && dirt.None? && h == c
  {
    hide At;
    hide Good;
    hide Calm;
    hide Grown;
    hide NextTable;
    hide OnWalk;
    var P := At(g, b, v);
    SpotFacts(g, h, b, v, d);
    WalkEntry(g, h, b, v, d);
    IndexAt(g, b, v, d);
    DirtElsewhere(g, h, P[..d], d, dirt);
    if EntryAt(g, h, b, v, d).Page? {
      BigHere(g, h, b, v, d);
    }
  }

  /** Into a table that is there. */
  lemma DescendNext(g: Geometry, c: State, mid: State, h: State, b: Path, v: nat, d: nat, t: nat, dirt: Option<Dirt>,
                    takes: bool)
    requires Departs(g, c, b, v, dirt, takes) && Descending(g, c, mid, h, b, v, d, t, dirt, takes)
    requires d < g.levels - (if takes then 2 else 1) && EntryAt(g, h, b, v, d).Next?
    ensures Descending(g, c, mid, h, b, v, d + 1, EntryAt(g, h, b, v, d).frame, dirt, takes)
    ensures At(g, b, v)[..d + 1] in c.at
  {
    hide At;
    hide Good;
    hide Calm;
    hide Grown;
    hide NextTable;
    hide OnWalk;
    SpotFacts(g, h, b, v, d);
    WalkEntry(g, h, b, v, d);
    SpotFacts(g, h, b, v, d + 1);
    GrownNext(g, c, h, b, v, d);
    DirtNext(g, c, b, v, d, t, EntryAt(g, h, b, v, d).frame, dirt);
    if HasBig(g, b) && d == g.levels - 2 {
      NoPageThere(g, c, h, b, v);
    }
  }

  /** Into a new table in the place of a 2 MiB page. */
  lemma DescendSplit(g: Geometry, c: State, mid: State, h: State, s: State, b: Path, v: nat, d: nat, t: nat,
                     dirt: Option<Dirt>, takes: bool)
    requires Departs(g, c, b, v, dirt, takes) && Descending(g, c, mid, h, b, v, d, t, dirt, takes)
    requires d == g.levels - 2 && !takes && EntryAt(g, h, b, v, d).Page? && HasBig(g, b) && h == c && dirt.None?
    requires SplitDone(g, h, s, b, v) && t < |s.mem| && Index(g, v, d) < |s.mem[t]|
    ensures s.mem[t][Index(g, v, d)].Next? && Soil(s, dirt) == s
    ensures Descending(g, c, s, s, b, v, d + 1, s.mem[t][Index(g, v, d)].frame, dirt, takes)
  {
    hide At;
    hide Good;
    hide Calm;
    hide SplitDone;
    hide OnWalk;
    SplitSpot(g, h, s, b, v);
    WalkEntry(g, s, b, v, d);
    SplitRooted(g, h, s, b, v);
    StepSelf(g, s, b, At(g, b, v));
  }

  /** The table that held the 2 MiB page still has its size. */
  lemma SplitSize(g: Geometry, s0: State, s1: State, b: Path, v: nat)
    requires HasBig(g, b) && Spot(g, s0, b, v, g.levels - 2) && SplitDone(g, s0, s1, b, v)
    ensures TableAt(g, s0, b, v, g.levels - 2) < |s1.mem| && |s1.mem[TableAt(g, s0, b, v, g.levels - 2)]| == ENTRIES
  {
    hide At;
    hide Good;
    hide SplitDone;
    hide OnWalk;
    SplitSpot(g, s0, s1, b, v);
    WalkEntry(g, s1, b, v, g.levels - 2);
  }

  lemma SplitRooted(g: Geometry, s0: State, s1: State, b: Path, v: nat)
    requires HasBig(g, b) && IsPath(b, |b|) && SplitDone(g, s0, s1, b, v)
    ensures b in s1.at && s1 != s0
  {
    hide At;
    hide Shape;
    AtIsPath(g, b, v);
    BigLookup(g, s0, At(g, b, v));
  }

  /** Into a new table in the place of a hole. */
  lemma DescendHang(g: Geometry, c: State, mid: State, s: State, h: State, b: Path, v: nat, d: nat, t: nat, f: nat,
                    dirt: Option<Dirt>, takes: bool)
    requires Departs(g, c, b, v, dirt, takes) && Descending(g, c, mid, s, b, v, d, t, dirt, takes)
    requires d < g.levels - (if takes then 2 else 1) && EntryAt(g, s, b, v, d).Absent?
    requires f < |s.mem| && f !in s.used && (forall p: nat | p < f :: p in s.used)
    requires At(g, b, v)[..d] in s.at && t == s.at[At(g, b, v)[..d]]
    requires t < |s.mem| && At(g, b, v)[d] < |s.mem[t]| && h == Hung(s, At(g, b, v), d, f)
    ensures Descending(g, c, mid, h, b, v, d + 1, f, dirt, takes) && h.at == s.at[At(g, b, v)[..d + 1] := f]
    ensures t < |Soil(s, dirt).mem| && Soil(s, dirt).mem[t] == s.mem[t]
    ensures Soil(h, dirt) == State(Put(Soil(s, dirt).mem, t, At(g, b, v)[d], Next(f)), s.used + {f}, h.at)
  {
    hide At;
    hide Good;
    hide Calm;
    hide Grown;
    hide NextTable;
    hide OnWalk;
    hide Soil;
    HangOnWay(g, c, mid, s, h, b, v, d, f, dirt, takes);
    if HasBig(g, b) && d == g.levels - 2 {
      NoPageThere(g, c, s, b, v);
    }
  }

  lemma DescendEnd(g: Geometry, c: State, mid: State, h: State, b: Path, v: nat, d: nat, t: nat, dirt: Option<Dirt>,
                   takes: bool)
    requires Descending(g, c, mid, h, b, v, d, t, dirt, takes)
    ensures Presplit(g, c, mid, b, v) && Calm(g, mid, h, b, At(g, b, v))
    ensures Spot(g, h, b, v, d) && t == TableAt(g, h, b, v, d)
    ensures (mid != c ==> d == g.levels - 1) && (takes ==> Grown(c, h, At(g, b, v), d)) && DirtAhead(g, h, d, t, dirt)
    ensures HasBig(g, b) && d == g.levels - 1 && mid == c ==> !BigSlot(g, c, At(g, b, v)).Page?
    ensures d == |b| ==> h == c
  {
  }

  lemma HungBlank(g: Geometry, s: State, s1: State, P: Path, d: nat, f: nat)
    requires Good(g, s) && IsPath(P, g.levels) && d + 1 < g.levels && P[..d] in s.at && f < |s.mem| && f !in s.used
    requires P[d] < |s.mem[s.at[P[..d]]]| && s1 == Hung(s, P, d, f)
    ensures s1.at[P[..d + 1]] == f && Entry(s1.mem, f, P[d + 1]) == Absent && Blank(s1.mem[f])
  {
    assert s.at[P[..d]] in s.at.Values;
  }

  // ---- The rounds of a mapping ----

  lemma CalmFacts(g: Geometry, s0: State, s: State, b: Path, P: Path)
    requires Calm(g, s0, s, b, P)
    ensures Good(g, s) && [] in s0.at && [] in s.at && b in s0.at && b in s.at && s.at[b] == s0.at[b]
  {
  }

  /** The 4 KiB page is written after the way down from s0, on which a 2 MiB page may have been split. */
  lemma PageRoundOver(g: Geometry, s0: State, mid: State, s: State, s1: State, b: Path, v: nat, pfn: nat, flags: nat)
    requires Fits(g, b, v, 1) && Presplit(g, s0, mid, b, v) && Calm(g, mid, s, b, At(g, b, v))
    requires mid == s0 && HasBig(g, b) ==> !BigSlot(g, s0, At(g, b, v)).Page?
    requires Spot(g, s, b, v, g.levels - 1) && At(g, b, v)[g.levels - 1] < |s.mem[TableAt(g, s, b, v, g.levels - 1)]|
    requires s1 == Written(s, At(g, b, v), g.levels - 1, Terminal(pfn, flags))
    ensures Step(g, s0, s1, b, At(g, b, v)) && NoNewBig(g, s0, s1) && CreatedOver(g, s0, s1, b, v, 1, pfn, flags)
    ensures At(g, b, v)[..g.levels - 1] in s1.at
  {
    hide At;
    hide Good;
    hide Framed;
    hide KeptBeside;
    hide Lookup;
    hide Created;
    hide CreatedOver;
    hide SameOutside;
    hide Pow;
    PageRound(g, mid, s, s1, b, v, pfn, flags);
    if mid != s0 {
      StepChain(g, s0, mid, s1, b, At(g, b, v));
    }
    OverOne(g, s0, mid, s1, b, v, pfn, flags);
  }

  lemma PageRound(g: Geometry, s0: State, s: State, s1: State, b: Path, v: nat, pfn: nat, flags: nat)
    requires |b| < g.levels && IsPath(b, |b|) && Calm(g, s0, s, b, At(g, b, v)) && Spot(g, s, b, v, g.levels - 1)
    requires At(g, b, v)[g.levels - 1] < |s.mem[TableAt(g, s, b, v, g.levels - 1)]|
    requires s1 == Written(s, At(g, b, v), g.levels - 1, Terminal(pfn, flags))
    ensures Step(g, s0, s1, b, At(g, b, v)) && NoNewBig(g, s0, s1) && Created(g, s0, s1, b, v, 1, pfn, flags)
    ensures At(g, b, v)[..g.levels - 1] in s1.at
  {
    hide At;
    hide Good;
    hide Framed;
    hide KeptBeside;
    hide Lookup;
    MapLeaf(g, s, s1, b, v, pfn, flags);
    StepChain(g, s0, s, s1, b, At(g, b, v));
  }

  /** A table of the tree is a table of the tree or a blank page afterwards. */
  lemma StillTable(g: Geometry, s: State, s2: State, t: nat)
    requires Good(g, s) && Good(g, s2) && Framed(s, s2) && t in s.at.Values
    ensures t < |s2.mem| && |s2.mem[t]| == ENTRIES
  {
    assert t !in s2.used - s2.at.Values;
    var q :| q in s.at && s.at[q] == t;
  }

  lemma BlockTable(g: Geometry, s: State, s2: State, b: Path, v: nat, d: nat)
    requires |b| < g.levels && Spot(g, s, b, v, d) && RangeStep(g, s, s2, b, v, ENTRIES)
    ensures TableAt(g, s, b, v, d) < |s2.mem| && |s2.mem[TableAt(g, s, b, v, d)]| == ENTRIES
  {
    hide At;
    hide Good;
    hide Framed;
    hide Kept;
    assert TableAt(g, s, b, v, d) in s.at.Values;
    StillTable(g, s, s2, TableAt(g, s, b, v, d));
  }

  /** The old mapping of the block of v has been released, from the state in which its walk had got to the entry. */
  ghost predicate BlockGone(g: Geometry, s: State, s2: State, b: Path, v: nat, w: nat)
    requires HasBig(g, b)
  {
    && Fits(g, b, v, ENTRIES) && v % ENTRIES == 0 && v <= w < v + ENTRIES
    && Spot(g, s, b, v, g.levels - 2) && RangeStep(g, s, s2, b, v, ENTRIES)
    && Unmapped(g, s, s2, b, v, ENTRIES) && Shrunk(s, s2)
    && Tight(g, s2, b, At(g, b, w))
  }

  /** An entry that is not present changes nothing: the place it goes to holds none either. */
  lemma AbsentWritten(g: Geometry, s: State, s2: State, b: Path, v: nat, t: nat)
    requires HasBig(g, b) && Spot(g, s, b, v, g.levels - 2) && t == TableAt(g, s, b, v, g.levels - 2)
    requires Good(g, s2) && Framed(s, s2) && t < |s2.mem| && |s2.mem[t]| == ENTRIES && Good(g, s)
    requires BigSlot(g, s2, At(g, b, v)) == Absent && At(g, b, v)[g.levels - 2] < ENTRIES
    requires At(g, b, v)[..g.levels - 2] in s2.at ==> s2.at[At(g, b, v)[..g.levels - 2]] == t
    requires At(g, b, v)[..g.levels - 2] !in s2.at ==> t !in s2.at.Values
    ensures Put(s2.mem, t, At(g, b, v)[g.levels - 2], Absent) == s2.mem
  {
    hide At;
    hide Shape;
    var P, d := At(g, b, v), g.levels - 2;
    assert s.at[P[..d]] in s.at.Values;
    if P[..d] in s2.at {
      assert Slot(s2, P[..d], P[d]) == s2.mem[t][P[d]];
    } else {
      assert t !in s2.used - s2.at.Values;
      assert Blank(s2.mem[t]);
    }
    assert s2.mem[t][P[d]] == Absent;
    assert s2.mem[t][P[d] := Absent] == s2.mem[t];
  }

  /** Entries that are not present map to nothing. */
  lemma CreatedUnmapped(g: Geometry, s: State, s2: State, b: Path, v: nat, n: nat, pfn: nat, flags: nat)
    requires |b| <= g.levels && flags % 2 == 0 && Unmapped(g, s, s2, b, v, n)
    ensures Created(g, s, s2, b, v, n, pfn, flags)
  {
    hide At;
    hide Look;
  }

  lemma BlockRound(g: Geometry, s0: State, s: State, s2: State, s3: State, b: Path, v: nat, w: nat, t: nat, pfn: nat,
                   flags: nat)
    requires HasBig(g, b) && Calm(g, s0, s, b, At(g, b, v)) && BlockGone(g, s, s2, b, v, w)
    requires t == TableAt(g, s, b, v, g.levels - 2) && t < |s2.mem| && |s2.mem[t]| == ENTRIES
    requires pfn % ENTRIES == 0 && At(g, b, v)[g.levels - 2] < ENTRIES
    requires s3 == s2.(mem := Put(s2.mem, t, At(g, b, v)[g.levels - 2], Terminal(pfn, flags)))
    ensures [] in s0.at && [] in s3.at
    ensures if flags % 2 == 0 || Anchored(g, s0, b, v)
            then RangeStep(g, s0, s3, b, v, ENTRIES) && Created(g, s0, s3, b, v, ENTRIES, pfn, flags)
                 && BigSlot(g, s3, At(g, b, v)) == Terminal(pfn, flags)
            else Lost(g, s0, s3, b, v)
  {
    hide At;
    hide Good;
    hide Framed;
    hide Kept;
    hide KeptBeside;
    hide Created;
    hide Unmapped;
    hide Anchored;
    hide Tight;
    hide SameLookups;
    var P, d := At(g, b, v), g.levels - 2;
    AnchoredCalm(g, s0, s, b, v);
    BlockReleased(g, s, s2, b, v, w);
    if flags % 2 == 0 {
      if P[..d] !in s2.at {
        Released(g, s, s2, P[..d], t);
      }
      AbsentWritten(g, s, s2, b, v, t);
      CreatedUnmapped(g, s, s2, b, v, ENTRIES, pfn, flags);
      CalmThenMap(g, s0, s, s2, b, v, ENTRIES, pfn, flags);
    } else if Anchored(g, s0, b, v) {
      MapBlock(g, s, s2, s3, b, v, pfn, flags);
      CalmThenMap(g, s0, s, s3, b, v, ENTRIES, pfn, flags);
    } else {
      BlockLost(g, s, s2, s3, b, v, t, P[d], Page(pfn, flags));
      CalmThenUnmap(g, s0, s, s3, b, P, v, ENTRIES);
    }
  }

  /** What an unanchored 2 MiB page leaves behind. */
  lemma OwingRound(g: Geometry, s0: State, s: State, s2: State, s3: State, b: Path, v: nat, w: nat, x: Dirt,
                   pfn: nat, flags: nat)
    requires HasBig(g, b) && Calm(g, s0, s, b, At(g, b, v)) && BlockGone(g, s, s2, b, v, w) && !Anchored(g, s0, b, v)
    requires x.f == TableAt(g, s, b, v, g.levels - 2) && Fitting(s2, x) && Grown(s0, s, At(g, b, v), g.levels - 2)
    requires x.i == At(g, b, v)[g.levels - 2] && x.e == Page(pfn, flags) && s3 == Soil(s2, Some(x))
    ensures Owing(g, s0, s3, b, v, pfn, flags, s2, x)
  {
    hide At;
    hide Good;
    hide Framed;
    hide Kept;
    hide KeptBeside;
    hide NoNewBig;
    hide NewBigInside;
    hide Anchored;
    hide Unmapped;
    hide Fresh;
    hide SameLookups;
    hide NextTable;
    hide Pow;
    var P, d := At(g, b, v), g.levels - 2;
    AnchoredCalm(g, s0, s, b, v);
    BlockReleased(g, s, s2, b, v, w);
    Released(g, s, s2, P[..d], x.f);
    CalmThenUnmap(g, s0, s, s2, b, P, v, ENTRIES);
    CalmThenStep(g, s0, s, s2, b, v, ENTRIES);
    if Fresh(g, s0, b, v) {
      WithdrawnFresh(g, s0, s, s2, b, v, w, x.f);
    }
  }

  lemma WithdrawnFresh(g: Geometry, s0: State, s: State, s2: State, b: Path, v: nat, w: nat, f: nat)
    requires HasBig(g, b) && Calm(g, s0, s, b, At(g, b, v)) && BlockGone(g, s, s2, b, v, w) && Fresh(g, s0, b, v)
    requires f == TableAt(g, s, b, v, g.levels - 2) && Grown(s0, s, At(g, b, v), g.levels - 2) && Framed(s0, s2)
    requires BigSlot(g, s2, At(g, b, v)) == Absent && !ReachesBig(g, s2, At(g, b, v))
    ensures s2.at == s0.at && NextTable(s2, At(g, b, v), g.levels - 2, f)
  {
    hide At;
    hide Good;
    hide Framed;
    hide Kept;
    hide KeptBeside;
    hide NoNewBig;
    hide NewBigInside;
    hide Unmapped;
    hide Tight;
    hide SameLookups;
    hide Pow;
    var P, d := At(g, b, v), g.levels - 2;
    BlockWalks(g, b, v, w);
    TightBlock(g, s2, b, P, At(g, b, w));
    SameTables(g, s0, s, s2, b, v);
    GapSame(s0, s2, P, P, d);
  }

  /** The next block of the region turns the dirty page into its table. */
  lemma WillReturn(g: Geometry, c: State, b: Path, v: nat, n: nat, pfn: nat, u: nat, x: Dirt)
    requires HasBig(g, b) && Fits(g, b, v, n) && v <= u && u % ENTRIES == 0 && BlockFollows(g, b, v, n, pfn, u)
    requires x.i == At(g, b, u)[g.levels - 2] && NextTable(c, At(g, b, u), g.levels - 2, x.f)
    requires x.e.Page? && x.e.pfn % ENTRIES == 0 && x.e.flags % 2 == 1
    ensures Returns(g, c, b, u + ENTRIES, u, x)
  {
    hide At;
    hide Pow;
    RegionPath(g, b, u);
    RegionPath(g, b, u + ENTRIES);
    NextRegion(u);
    GapSame(c, c, At(g, b, u), At(g, b, u + ENTRIES), g.levels - 2);
  }

  lemma NextRegion(u: nat)
    requires u % ENTRIES == 0 && u / ENTRIES % ENTRIES != ENTRIES - 1
    ensures (u + ENTRIES) / ENTRIES == u / ENTRIES + 1
    ensures (u + ENTRIES) / ENTRIES / ENTRIES == u / ENTRIES / ENTRIES
    ensures (u + ENTRIES) / ENTRIES % ENTRIES != u / ENTRIES % ENTRIES
  {
    var q := u / ENTRIES;
    assert (u + ENTRIES) / ENTRIES == q + 1;
    assert (q + 1) / ENTRIES == q / ENTRIES;
  }

  // ---- The mapping loop ----

  lemma MapInvStart(g: Geometry, s: State, b: Path, v: nat, pfn: nat, flags: nat, exact: bool)
    requires |b| < g.levels && Good(g, s) && b in s.at
    ensures MapInv(g, s, s, b, v, 0, pfn, flags, exact)
  {
  }

  lemma MapInvFacts(g: Geometry, s0: State, s: State, b: Path, v: nat, j: nat, pfn: nat, flags: nat, exact: bool)
    requires |b| < g.levels && MapInv(g, s0, s, b, v, j, pfn, flags, exact)
    ensures Good(g, s) && RangeStep(g, s0, s, b, v, j) && CreatedOver(g, s0, s, b, v, j, pfn, flags)
    ensures (exact ==> Created(g, s0, s, b, v, j, pfn, flags)) && BlocksInside(g, s, b, v, j)
    ensures [] in s0.at && [] in s.at && b in s.at && b in s0.at && s.at[b] == s0.at[b]
  {
  }

  /** A round that fails leaves exactly the pages mapped that were mapped before it. */
  lemma MapInvStop(g: Geometry, s0: State, s: State, s1: State, b: Path, v: nat, j: nat, n: nat, pfn: nat, flags: nat,
                   exact: bool)
    requires |b| < g.levels && IsPath(b, |b|) && j < n && MapInv(g, s0, s, b, v, j, pfn, flags, exact)
    requires Calm(g, s, s1, b, At(g, b, v + j))
    ensures RangeStep(g, s0, s1, b, v, n) && CreatedOver(g, s0, s1, b, v, j, pfn, flags)
    ensures exact ==> Created(g, s0, s1, b, v, j, pfn, flags)
    ensures b in s1.at && b in s.at && s1.at[b] == s.at[b]
  {
    hide At;
    hide Good;
    hide Framed;
    hide Kept;
    hide KeptBeside;
    hide Lookup;
    hide CreatedOver;
    RangeStepOne(g, s0, s, s1, b, v, j, n, v + j);
    OverCalm(g, s0, s, s1, b, v, j, pfn, flags, At(g, b, v + j));
    forall k: nat | v <= k < v + j ensures exact ==> Look(s1, At(g, b, k)) == Mapped(pfn + (k - v), flags) {
      AtIsPath(g, b, k);
    }
  }

  /** The entry for the pages from v + k on is in a free page. Before that, the first k pages were mapped. */
  ghost predicate MapOwed(g: Geometry, s0: State, c: State, b: Path, v: nat, k: nat, pfn: nat, flags: nat, exact: bool,
                          x: Dirt)
    requires |b| < g.levels
  {
    HasBig(g, b) && (v + k) % ENTRIES == 0 && x.e == Page(pfn + k, flags)
    && exists s: State ::
         && MapInv(g, s0, s, b, v, k, pfn, flags, exact)
         && RangeStep(g, s, c, b, v + k, ENTRIES) && Unmapped(g, s, c, b, v + k, ENTRIES)
  }

  lemma OwedNow(g: Geometry, s0: State, s: State, s1: State, b: Path, v: nat, k: nat, n: nat, pfn: nat, flags: nat,
                exact: bool, gone: State, x: Dirt)
    requires HasBig(g, b) && Fits(g, b, v, n) && k < n && MapInv(g, s0, s, b, v, k, pfn, flags, exact) && flags % 2 == 1
    requires TakesBlock(g, b, v + k, n - k, pfn + k) && Owing(g, s, s1, b, v + k, pfn + k, flags, gone, x)
    requires Fresh(g, s, b, v + k) && BlockFollows(g, b, v, n, pfn, v + k)
    ensures MapOwed(g, s0, gone, b, v, k, pfn, flags, exact, x) && Soiled(g, s1, gone, Some(x)) && gone.at == s.at
    ensures Returns(g, gone, b, v + k + ENTRIES, v + k, x)
    ensures TakesBlock(g, b, v + k + ENTRIES, n - k - ENTRIES, pfn + k + ENTRIES)
  {
    hide At;
    hide Good;
    hide MapInv;
    hide RangeStep;
    hide Unmapped;
    hide Fresh;
    hide Pow;
    WillReturn(g, gone, b, v, n, pfn, v + k, x);
  }

  lemma MapOwedPaid(g: Geometry, s0: State, c: State, V: State, b: Path, v: nat, k: nat, n: nat, pfn: nat, flags: nat,
                    exact: bool, x: Dirt)
    requires HasBig(g, b) && Fits(g, b, v, n) && k + ENTRIES <= n && MapOwed(g, s0, c, b, v, k, pfn, flags, exact, x)
    requires RangeStep(g, c, V, b, v + k, ENTRIES) && Created(g, c, V, b, v + k, ENTRIES, x.e.pfn, x.e.flags)
    ensures MapInv(g, s0, V, b, v, k + ENTRIES, pfn, flags, exact)
  {
    hide At;
    hide MapInv;
    hide RangeStep;
    hide Unmapped;
    hide Created;
    hide Pow;
    var s :| && MapInv(g, s0, s, b, v, k, pfn, flags, exact)
             && RangeStep(g, s, c, b, v + k, ENTRIES) && Unmapped(g, s, c, b, v + k, ENTRIES);
    Repaid(g, s, c, V, b, v + k, pfn + k, flags);
    MapInvBlock(g, s0, s, V, b, v, k, n, pfn, flags, exact);
  }
}
