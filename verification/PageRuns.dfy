/**
 * Whole runs: any sequence of mappings and unmappings with 4 KiB pages refines the update of a map from page
 * numbers; a range mapped as a whole can, after any work elsewhere, be unmapped as a whole without splits.
 */
module PageRuns {
  import opened Options
  import opened PageTree
  import opened PageRanges
  import opened PageSteps
  import opened PageOps
  import opened PageClean
  import opened PageRounds
  import opened PageMaps
  import opened PageOver
  import opened PageFresh
  import opened PageCreate
  import opened Paging

  // ---- Refinement to a map from page numbers ----

  datatype Op =
    | Map(pfn: nat, n: nat, v: nat, flags: nat)
    | Unmap(n: nat, v: nat)

  /** What an operation that got through k of its pages does to the translation m of page w. */
  function Effect(op: Op, k: nat, w: nat, m: Option<Mapping>): Option<Mapping> {
    if op.v <= w < op.v + k then
      if op.Map? then Mapped(op.pfn + (w - op.v), op.flags) else None
    else m
  }

  function Replay(ops: seq<Op>, done: seq<nat>, w: nat, m: Option<Mapping>): Option<Mapping>
    requires |ops| == |done|
  {
    if ops == [] then m
    else
      var i := |ops| - 1;
      Effect(ops[i], done[i], w, Replay(ops[..i], done[..i], w, m))
  }

  function View(g: Geometry, s: State, w: nat): Option<Mapping> {
    Look(s, At(g, [], w))
  }

  lemma CreatedView(g: Geometry, s0: State, s1: State, op: Op, k: nat, w: nat)
    requires g.Valid() && op.Map? && k <= op.n && op.v + op.n <= Pow(g.levels) && w < Pow(g.levels)
    requires Created(g, s0, s1, [], op.v, k, op.pfn, op.flags)
    ensures View(g, s1, w) == Effect(op, k, w, View(g, s0, w))
  {
    hide At;
    hide Pow;
    hide Look;
    AtIsPath(g, [], w);
    WithinOne(g, [], op.v, w, k);
  }

  lemma UnmappedView(g: Geometry, s0: State, s1: State, op: Op, k: nat, w: nat)
    requires g.Valid() && op.Unmap? && k <= op.n && op.v + op.n <= Pow(g.levels) && w < Pow(g.levels)
    requires Unmapped(g, s0, s1, [], op.v, k)
    ensures View(g, s1, w) == Effect(op, k, w, View(g, s0, w))
  {
    hide At;
    hide Pow;
    hide Look;
    AtIsPath(g, [], w);
    WithinOne(g, [], op.v, w, k);
  }

  /** The number of tables is the number of pages the tree holds. */
  lemma {:induction false} TableCount(at: map<Path, nat>)
    requires forall p, q | p in at && q in at && at[p] == at[q] :: p == q
    ensures |at.Values| == |at|
    decreases |at|
  {
    if p :| p in at {
      ValuesRemove(at, p);
      TableCount(at - {p});
      assert at.Values == (at - {p}).Values + {at[p]};
      assert |at - {p}| == |at| - 1;
    } else {
      assert at.Values == {};
    }
  }

  /** Pages in use change by tables added minus tables released. */
  lemma UsedCount(g: Geometry, s0: State, s1: State)
    requires Good(g, s0) && Good(g, s1) && Framed(s0, s1)
    ensures |s1.used| + |s0.at| == |s0.used| + |s1.at|
  {
    TableCount(s0.at);
    TableCount(s1.at);
    assert |s0.used - s0.at.Values| == |s0.used| - |s0.at.Values|;
    assert |s1.used - s1.at.Values| == |s1.used| - |s1.at.Values|;
  }

  /** The pages of the operation exist. */
  predicate Addressed(g: Geometry, op: Op) {
    op.v + op.n <= Pow(g.levels)
  }

  /** The operation is exact: always with 4 KiB pages, under the conditions for the two loops with 2 MiB pages. */
  ghost predicate Allowed(g: Geometry, s: State, op: Op)
    requires g.levels > 0
  {
    match op
    case Map(pfn, n, v, flags) => MapOk(g, s, [], v, n, pfn, flags)
    case Unmap(n, v) => Clean(g, s, [], v, n, true)
  }

  lemma AllowedSmall(g: Geometry, s: State, op: Op)
    requires g.levels > 0 && !g.big
    ensures Allowed(g, s, op)
  {
  }

  /**
   * How far an operation got: all the way, or it ran out of tables before its end, which with 4 KiB pages happens
   * only to mappings.
   */
  predicate Outcome(g: Geometry, op: Op, err: int, k: nat) {
    if err == 0 then k == op.n else err == -ENOMEM && (op.Map? || g.big) && k < op.n
  }

  /** One operation on a tree rooted at its first level. */
  method Perform(t: PageTables, st: Structs, op: Op, ghost at: map<Path, nat>)
    returns (err: int, ghost k: nat, ghost at1: map<Path, nat>)
    requires t.Ready(st, [], at) && Addressed(st.g, op) && st.g.levels > 0 && Allowed(st.g, t.S(at), op)
    modifies t`mem, t.pool`usedPages, t.pool.bitmap
    ensures t.Ready(st, [], at1) && Framed(old(t.S(at)), t.S(at1)) && Outcome(st.g, op, err, k)
    ensures err != 0 ==> t.Full()
    ensures forall w: nat | w < Pow(st.g.levels) ::
              View(st.g, t.S(at1), w) == Effect(op, k, w, View(st.g, old(t.S(at)), w))
  {
    hide At;
    hide Good;
    hide Look;
    hide Pow;
    hide Created;
    hide Unmapped;
    hide Framed;
    hide Kept;
    hide NewBigInside;
    ghost var s0 := t.S(at);
    RootFits(st.g, s0);
    match op {
      case Map(pfn, n, v, flags) =>
        MapOkAnchors(st.g, s0, [], v, n, pfn, flags);
        err, at1, k := t.Create(st, pfn, n, v, flags, [], at);
        forall w: nat | w < Pow(st.g.levels) ensures View(st.g, t.S(at1), w) == Effect(op, k, w, View(st.g, s0, w)) {
          CreatedView(st.g, s0, t.S(at1), op, k, w);
        }
      case Unmap(n, v) =>
        ghost var ss, vs;
        CleanWithout(st.g, s0, v, n);
        err, at1, ss, vs := t.Destroy(st, v, n, [], at, st.g.big);
        if err == 0 {
          k := n;
        } else {
          k :| k < n && Unmapped(st.g, s0, t.S(at1), [], v, k);
        }
        forall w: nat | w < Pow(st.g.levels) ensures View(st.g, t.S(at1), w) == Effect(op, k, w, View(st.g, s0, w)) {
          UnmappedView(st.g, s0, t.S(at1), op, k, w);
        }
    }
  }

  lemma CleanWithout(g: Geometry, s: State, v: nat, n: nat)
    requires g.levels > 0 && Clean(g, s, [], v, n, true)
    ensures Clean(g, s, [], v, n, g.big)
  {
  }

  lemma RootLevels(g: Geometry, s: State)
    requires Good(g, s)
    ensures g.levels > 0
  {
  }

  lemma RootFits(g: Geometry, s: State)
    requires Good(g, s)
    ensures g.Valid() && [] in s.at && IsPath([], 0)
  {
  }

  /**
   * Any sequence of mappings and unmappings with 4 KiB pages, failures included: the translations are those of the
   * abstract map, the tree stays well-formed (each table reachable through exactly one entry, in use, freed pages
   * blank and out of reach), everything else in the pool is untouched, and the usage counter has changed by exactly
   * the tables added minus the tables released.
   */
  method Churn(t: PageTables, st: Structs, ops: seq<Op>, ghost at: map<Path, nat>)
    returns (errs: seq<int>, ghost done: seq<nat>, ghost at1: map<Path, nat>)
    requires t.Ready(st, [], at) && !st.g.big && forall i | 0 <= i < |ops| :: Addressed(st.g, ops[i])
    modifies t`mem, t.pool`usedPages, t.pool.bitmap
    ensures |errs| == |done| == |ops| && forall i | 0 <= i < |ops| :: Outcome(st.g, ops[i], errs[i], done[i])
    ensures forall w: nat | w < Pow(st.g.levels) ::
              View(st.g, t.S(at1), w) == Replay(ops, done, w, View(st.g, old(t.S(at)), w))
    ensures t.Ready(st, [], at1) && Framed(old(t.S(at)), t.S(at1))
    ensures t.pool.usedPages + |at| == old(t.pool.usedPages) + |at1|
  {
    hide View;
    hide Pow;
    hide Good;
    hide Framed;
    hide Pool.PagePool.Used;
    hide Allowed;
    ghost var s0 := t.S(at);
    errs, done, at1 := [], [], at;
    FramedSelf(s0);
    var i := 0;
    while i < |ops|
      invariant 0 <= i <= |ops| && |errs| == |done| == i
      invariant forall j | 0 <= j < i :: Outcome(st.g, ops[j], errs[j], done[j])
      invariant t.Ready(st, [], at1) && Framed(s0, t.S(at1))
      invariant forall w: nat | w < Pow(st.g.levels) ::
                  View(st.g, t.S(at1), w) == Replay(ops[..i], done, w, View(st.g, s0, w))
    {
      ghost var s := t.S(at1);
      var err;
      ghost var k;
      RootLevels(st.g, s);
      AllowedSmall(st.g, s, ops[i]);
      err, k, at1 := Perform(t, st, ops[i], at1);
      FramedChain(s0, s, t.S(at1));
      forall w: nat | w < Pow(st.g.levels)
        ensures View(st.g, t.S(at1), w) == Replay(ops[..i + 1], done + [k], w, View(st.g, s0, w))
      {
        assert ops[..i + 1][..i] == ops[..i] && (done + [k])[..i] == done;
      }
      errs, done, i := errs + [err], done + [k], i + 1;
    }
    assert ops[..i] == ops;
    UsedCount(st.g, s0, t.S(at1));
  }

  lemma FramedSelf(s: State)
    ensures Framed(s, s)
  {
  }

  lemma FramedChain(s0: State, s1: State, s2: State)
    requires Framed(s0, s1) && Framed(s1, s2)
    ensures Framed(s0, s2)
  {
  }

  // ---- Ranges mapped and unmapped as a whole, with 2 MiB pages ----

  /** The range maps to consecutive pages, and the 2 MiB pages it runs through lie within it. */
  ghost predicate Whole(g: Geometry, s: State, b: Path, v: nat, n: nat, pfn: nat, flags: nat)
    requires |b| < g.levels
  {
    && (forall k: nat | v <= k < v + n :: Look(s, At(g, b, k)) == Some(Mapping(pfn + (k - v), flags)))
    && BlocksInside(g, s, b, v, n)
  }

  /** Mapping a range leaves it mapped as a whole. */
  lemma WholeCreated(g: Geometry, s0: State, s1: State, b: Path, v: nat, n: nat, pfn: nat, flags: nat)
    requires |b| < g.levels && flags % 2 == 1
    requires CreatedOver(g, s0, s1, b, v, n, pfn, flags) && BlocksInside(g, s1, b, v, n)
    ensures Whole(g, s1, b, v, n, pfn, flags)
  {
    hide At;
    hide Look;
    hide Redirected;
    forall k: nat | v <= k < v + n ensures Look(s1, At(g, b, k)) == Some(Mapping(pfn + (k - v), flags)) {
      assert Look(s1, At(g, b, k)) == Mapped(pfn + (k - v), flags);
    }
  }

  /** Work on a disjoint range, finished or not, keeps a range mapped as a whole. */
  lemma WholeKept(g: Geometry, s0: State, s1: State, b: Path, v: nat, n: nat, pfn: nat, flags: nat, u: nat, m: nat)
    requires Fits(g, b, v, n) && Fits(g, b, u, m) && (u + m <= v || v + n <= u)
    requires Whole(g, s0, b, v, n, pfn, flags) && Worked(g, s0, s1, b, u, m)
    ensures Whole(g, s1, b, v, n, pfn, flags)
  {
    hide At;
    hide Good;
    hide Framed;
    hide Kept;
    hide Hit;
    hide Pow;
    hide Slot;
    forall k: nat | v <= k < v + n ensures Look(s1, At(g, b, k)) == Some(Mapping(pfn + (k - v), flags)) {
      AtIsPath(g, b, k);
      WithinOne(g, b, u, k, m);
      WholeNotHit(g, s0, b, v, n, u, m, k);
    }
    if HasBig(g, b) {
      forall w: nat | v <= w < v + n && BigSlot(g, s1, At(g, b, w)).Page?
        ensures v <= BlockStart(w) && BlockStart(w) + ENTRIES <= v + n
      {
        AtIsPath(g, b, w);
        NotInside(g, b, u, m, w);
      }
    }
  }

  lemma WholeNotHit(g: Geometry, s: State, b: Path, v: nat, n: nat, u: nat, m: nat, k: nat)
    requires Fits(g, b, v, n) && Fits(g, b, u, m) && (u + m <= v || v + n <= u)
    requires BlocksInside(g, s, b, v, n) && v <= k < v + n
    ensures !Hit(g, s, b, u, m, At(g, b, k))
  {
    hide At;
    hide Pow;
    var P := At(g, b, k);
    if Hit(g, s, b, u, m, P) {
      var x: nat :| u <= x < u + m && P[..g.levels - 1] <= At(g, b, x);
      SameBlock(g, b, k, x);
    }
  }

  /** Over any sequence of works on ranges disjoint from it. */
  lemma {:induction false} WholeOverWork(g: Geometry, states: seq<State>, works: seq<(nat, nat)>, b: Path,
                                         v: nat, n: nat, pfn: nat, flags: nat)
    requires |states| == |works| + 1 && Fits(g, b, v, n) && Whole(g, states[0], b, v, n, pfn, flags)
    requires forall i | 0 <= i < |works| ::
               && Fits(g, b, works[i].0, works[i].1) && (works[i].0 + works[i].1 <= v || v + n <= works[i].0)
               && Worked(g, states[i], states[i + 1], b, works[i].0, works[i].1)
    ensures Whole(g, states[|works|], b, v, n, pfn, flags)
  {
    hide Worked;
    hide Whole;
    hide Pow;
    if works != [] {
      var i := |works| - 1;
      WholeOverWork(g, states[..i + 1], works[..i], b, v, n, pfn, flags);
      WholeKept(g, states[i], states[i + 1], b, v, n, pfn, flags, works[i].0, works[i].1);
    }
  }

  /** A range mapped as a whole is clean: unmapping it needs no split. */
  lemma WholeClean(g: Geometry, s: State, b: Path, v: nat, n: nat, pfn: nat, flags: nat)
    requires |b| < g.levels && IsPath(b, |b|) && Good(g, s) && Whole(g, s, b, v, n, pfn, flags)
    ensures Clean(g, s, b, v, n, false)
  {
    hide At;
    hide Good;
    hide Slot;
    hide Look;
    if HasBig(g, b) {
      forall w: nat | v <= w < v + n ensures CleanAt(g, s, b, v, n, false, w) {
        AtIsPath(g, b, w);
        BigLookup(g, s, At(g, b, w));
      }
    }
  }

  /** Unmapping a range that is mapped as a whole never fails, never splits and takes no page from the pool. */
  method UnmapWhole(t: PageTables, st: Structs, v: nat, n: nat, ghost pfn: nat, ghost flags: nat,
                    ghost b: Path, ghost at: map<Path, nat>)
    returns (err: int, ghost at1: map<Path, nat>)
    requires t.Ready(st, b, at) && Fits(st.g, b, v, n) && Whole(st.g, t.S(at), b, v, n, pfn, flags)
    modifies t`mem, t.pool`usedPages, t.pool.bitmap
    ensures err == 0 && t.Ready(st, b, at1) && Unmapped(st.g, old(t.S(at)), t.S(at1), b, v, n)
    ensures Shrunk(old(t.S(at)), t.S(at1)) && t.pool.usedPages + |at| == old(t.pool.usedPages) + |at1|
    ensures |at1| <= |at|
  {
    hide At;
    hide Good;
    hide Whole;
    hide Clean;
    hide Unmapped;
    hide Framed;
    hide Kept;
    hide NewBigInside;
    hide Pool.PagePool.Used;
    ghost var s0 := t.S(at);
    WholeClean(st.g, s0, b, v, n, pfn, flags);
    ghost var ss, vs;
    err, at1, ss, vs := t.Destroy(st, v, n, b, at, false);
    UsedCount(st.g, s0, t.S(at1));
    FewerTables(at, at1);
  }

  lemma FewerTables(at: map<Path, nat>, at1: map<Path, nat>)
    requires forall q | q in at1 :: q in at
    ensures |at1| <= |at|
  {
    assert at1.Keys <= at.Keys;
    assert |at.Keys - at1.Keys| == |at.Keys| - |at1.Keys|;
  }

  // ---- The life of a mapping ----

  /**
   * A range that was mapped is, after any calls on other ranges, finished or failed, whatever they split or clear,
   * still mapped as a whole, and unmapping it needs no split.
   */
  lemma WholeLife(g: Geometry, s: State, states: seq<State>, works: seq<(nat, nat)>, b: Path,
                  v: nat, n: nat, pfn: nat, flags: nat)
    requires |states| == |works| + 1 && Fits(g, b, v, n) && flags % 2 == 1 && Good(g, states[|works|])
    requires CreatedOver(g, s, states[0], b, v, n, pfn, flags) && BlocksInside(g, states[0], b, v, n)
    requires forall i | 0 <= i < |works| ::
               && Fits(g, b, works[i].0, works[i].1) && (works[i].0 + works[i].1 <= v || v + n <= works[i].0)
               && Worked(g, states[i], states[i + 1], b, works[i].0, works[i].1)
    ensures Whole(g, states[|works|], b, v, n, pfn, flags) && Clean(g, states[|works|], b, v, n, false)
  {
    hide Whole;
    hide Worked;
    hide CreatedOver;
    hide BlocksInside;
    hide Clean;
    hide Good;
    hide Pow;
    WholeCreated(g, s, states[0], b, v, n, pfn, flags);
    WholeOverWork(g, states, works, b, v, n, pfn, flags);
    WholeClean(g, states[|works|], b, v, n, pfn, flags);
  }

  /** Whether a range can be mapped, and exactly, is not changed by mapping another one. */
  lemma MapOkKept(g: Geometry, s0: State, s1: State, b: Path, v: nat, n: nat, pfn: nat, flags: nat,
                  u: nat, m: nat, pfn2: nat, flags2: nat)
    requires Fits(g, b, v, n) && Fits(g, b, u, m) && (u + m <= v || v + n <= u) && flags % 2 == 1
    requires RangeStep(g, s0, s1, b, v, n) && CreatedOver(g, s0, s1, b, v, n, pfn, flags)
    ensures AnchorOk(g, s0, b, u, m, pfn2, flags2) ==> AnchorOk(g, s1, b, u, m, pfn2, flags2)
    ensures MapOk(g, s0, b, u, m, pfn2, flags2) ==> MapOk(g, s1, b, u, m, pfn2, flags2)
  {
    hide At;
    hide Good;
    hide Framed;
    hide Pow;
    hide Anchored;
    hide Fresh;
    hide CreatedOver;
    hide Kept;
    if HasBig(g, b) {
      forall w: nat | u <= w < u + m
        ensures AnchorOkAt(g, s0, b, u, m, pfn2, flags2, w) ==> AnchorOkAt(g, s1, b, u, m, pfn2, flags2, w)
        ensures MapOkAt(g, s0, b, u, m, pfn2, flags2, w) ==> MapOkAt(g, s1, b, u, m, pfn2, flags2, w)
      {
        AtIsPath(g, b, w);
        NotInside(g, b, v, n, w);
        if Anchored(g, s0, b, w) {
          AnchoredThrough(g, s0, s1, b, v, n, pfn, flags, w);
        } else if BlockOf(g, b, u, m, pfn2, w) && Fresh(g, s0, b, w) {
          FreshThrough(g, s0, s1, b, v, n, pfn, flags, w);
        }
      }
    }
  }

  lemma FreshThrough(g: Geometry, s0: State, s1: State, b: Path, v: nat, n: nat, pfn: nat, flags: nat, w: nat)
    requires HasBig(g, b) && Fits(g, b, v, n) && w < Pow(g.levels - |b|) && flags % 2 == 1 && Fresh(g, s0, b, w)
    requires RangeStep(g, s0, s1, b, v, n) && CreatedOver(g, s0, s1, b, v, n, pfn, flags)
    requires v + n <= BlockStart(w) || BlockStart(w) + ENTRIES <= v
    ensures Fresh(g, s1, b, w) || Anchored(g, s1, b, w)
  {
    hide At;
    hide RangeStep;
    hide Redirected;
    hide Fresh;
    hide Anchored;
    hide Look;
    hide Pow;
    forall k: nat | v <= k < v + n ensures Look(s1, At(g, b, k)).Some? {
      assert Look(s1, At(g, b, k)) == Mapped(pfn + (k - v), flags);
    }
    FreshOrAnchored(g, s0, s1, b, v, n, w);
  }

  lemma AnchoredThrough(g: Geometry, s0: State, s1: State, b: Path, v: nat, n: nat, pfn: nat, flags: nat, w: nat)
    requires HasBig(g, b) && Fits(g, b, v, n) && w < Pow(g.levels - |b|) && flags % 2 == 1 && Anchored(g, s0, b, w)
    requires RangeStep(g, s0, s1, b, v, n) && CreatedOver(g, s0, s1, b, v, n, pfn, flags)
    ensures Anchored(g, s1, b, w)
  {
    hide At;
    hide Framed;
    hide Shape;
    hide Pow;
    hide Lookup;
    hide Redirected;
    AtIsPath(g, b, w);
    var P, d := At(g, b, w), g.levels - 2;
    if |b| != d {
      var i: nat :| i != P[d] && Slot(s0, P[..d], i) != Absent;
      var q := P[..d] + [i];
      if Touches(g, b, v, n, q) {
        var k: nat :| v <= k < v + n && q <= At(g, b, k);
        AtIsPath(g, b, k);
        var Q := At(g, b, k);
        BigLookup(g, s1, Q);
        assert Q[..d] == q[..d] == P[..d] && Q[d] == q[d] == i;
        assert Slot(s1, P[..d], i) != Absent;
      } else {
        assert SlotKept(s0, s1, P[..d], i);
      }
    }
  }

  /** A call of page_map_create or page_map_destroy on [u, u + m). */
  datatype Work = Work(maps: bool, u: nat, m: nat, pfn: nat, flags: nat)

  /** What such a call does, if it maps k pages. */
  ghost predicate Done(g: Geometry, s0: State, s1: State, b: Path, x: Work, k: nat)
    requires |b| < g.levels
  {
    Worked(g, s0, s1, b, x.u, x.m) && (x.maps ==> k <= x.m && CreatedOver(g, s0, s1, b, x.u, k, x.pfn, x.flags))
  }

  /** All of a mapping call can be exact. */
  ghost predicate Exact(g: Geometry, s: State, b: Path, x: Work)
    requires |b| < g.levels
  {
    x.maps && MapOk(g, s, b, x.u, x.m, x.pfn, x.flags)
  }

  method Call(t: PageTables, st: Structs, x: Work, ghost b: Path, ghost at: map<Path, nat>)
    returns (err: int, ghost at1: map<Path, nat>, ghost k: nat)
    requires t.Ready(st, b, at) && Fits(st.g, b, x.u, x.m)
    requires x.maps ==> AnchorOk(st.g, t.S(at), b, x.u, x.m, x.pfn, x.flags)
    modifies t`mem, t.pool`usedPages, t.pool.bitmap
    ensures t.Ready(st, b, at1) && Done(st.g, old(t.S(at)), t.S(at1), b, x, k)
    ensures err != 0 ==> err == -ENOMEM && t.Full()
    ensures x.maps && err == 0 ==> k == x.m
    ensures Exact(st.g, old(t.S(at)), b, x) ==> Created(st.g, old(t.S(at)), t.S(at1), b, x.u, k, x.pfn, x.flags)
  {
    hide Worked;
    hide Created;
    hide CreatedOver;
    hide MapOk;
    hide AnchorOk;
    hide Good;
    hide Rounds;
    k := 0;
    if x.maps {
      err, at1, k := t.Create(st, x.pfn, x.m, x.u, x.flags, b, at);
    } else {
      ghost var ss, vs;
      err, at1, ss, vs := t.Destroy(st, x.u, x.m, b, at, false);
    }
  }

  /**
   * A range is mapped, then there is another call on a disjoint range, with success or not, then the first is
   * unmapped: that never fails and takes back exactly the first call's range. If both calls are exact mappings, what
   * remains is what was there before, but for the part of the second range that was mapped.
   */
  method MapWorkUnmap(t: PageTables, st: Structs, v: nat, n: nat, pfn: nat, flags: nat, other: Work,
                      ghost b: Path, ghost at: map<Path, nat>)
    returns (err1: int, err2: int, err3: int, ghost s1: State, ghost s2: State, ghost k: nat, ghost at1: map<Path, nat>)
    requires t.Ready(st, b, at) && Fits(st.g, b, v, n) && Fits(st.g, b, other.u, other.m) && flags % 2 == 1
    requires other.u + other.m <= v || v + n <= other.u
    requires AnchorOk(st.g, t.S(at), b, v, n, pfn, flags)
    requires other.maps ==> AnchorOk(st.g, t.S(at), b, other.u, other.m, other.pfn, other.flags)
    modifies t`mem, t.pool`usedPages, t.pool.bitmap
    ensures t.Ready(st, b, at1) && (err1 == 0 ==> err3 == 0)
    ensures err1 == 0 ==> CreatedOver(st.g, old(t.S(at)), s1, b, v, n, pfn, flags) && Done(st.g, s1, s2, b, other, k)
    ensures err1 == 0 ==> Unmapped(st.g, s2, t.S(at1), b, v, n) && Shrunk(s2, t.S(at1))
    ensures err1 == 0 && MapOk(st.g, old(t.S(at)), b, v, n, pfn, flags) && Exact(st.g, old(t.S(at)), b, other) ==>
              Remains(st.g, old(t.S(at)), t.S(at1), b, v, n, other, k)
  {
    hide At;
    hide Good;
    hide Look;
    hide Pow;
    hide MapOk;
    hide AnchorOk;
    hide CreatedOver;
    hide Created;
    hide Unmapped;
    hide Done;
    hide Remains;
    hide Worked;
    hide Within;
    hide BlocksInside;
    hide Whole;
    hide Shrunk;
    hide Pool.PagePool.Used;
    ghost var s0 := t.S(at);
    err2, err3, k := 0, 0, 0;
    ghost var all;
    err1, at1, all := t.Create(st, pfn, n, v, flags, b, at);
    s1 := t.S(at1);
    s2 := s1;
    if err1 != 0 {
      return;
    }
    WorkedFacts(st.g, s0, s1, b, v, n);
    MapOkKept(st.g, s0, s1, b, v, n, pfn, flags, other.u, other.m, other.pfn, other.flags);
    err2, at1, k := Call(t, st, other, b, at1);
    s2 := t.S(at1);
    WholeAfter(st.g, s0, s1, s2, b, v, n, pfn, flags, other, k);
    err3, at1 := UnmapWhole(t, st, v, n, pfn, flags, b, at1);
    if MapOk(st.g, s0, b, v, n, pfn, flags) && Exact(st.g, s0, b, other) {
      DoneBound(st.g, s1, s2, b, other, k);
      RemainsSo(st.g, s0, s1, s2, t.S(at1), b, v, n, pfn, flags, other, k);
    }
  }

  lemma WholeAfter(g: Geometry, s0: State, s1: State, s2: State, b: Path, v: nat, n: nat, pfn: nat, flags: nat,
                   x: Work, k: nat)
    requires Fits(g, b, v, n) && flags % 2 == 1 && Fits(g, b, x.u, x.m) && (x.u + x.m <= v || v + n <= x.u)
    requires CreatedOver(g, s0, s1, b, v, n, pfn, flags) && BlocksInside(g, s1, b, v, n) && Done(g, s1, s2, b, x, k)
    requires Good(g, s2)
    ensures Whole(g, s2, b, v, n, pfn, flags)
  {
    hide Worked;
    hide CreatedOver;
    hide BlocksInside;
    hide Whole;
    hide Good;
    WholeLife(g, s0, [s1, s2], [(x.u, x.m)], b, v, n, pfn, flags);
  }

  lemma DoneBound(g: Geometry, s1: State, s2: State, b: Path, x: Work, k: nat)
    requires |b| < g.levels && Done(g, s1, s2, b, x, k) && x.maps
    ensures k <= x.m
  {
  }

  /** After mapping one range, k pages of another one, and unmapping the first. */
  ghost predicate Remains(g: Geometry, s0: State, s3: State, b: Path, v: nat, n: nat, x: Work, k: nat)
    requires |b| < g.levels
  {
    forall P | IsPath(P, g.levels) ::
      if Within(g, b, v, n, P) then Look(s3, P) == None
      else if Within(g, b, x.u, k, P) then
        exists w: nat :: && x.u <= w < x.u + k && P == At(g, b, w)
                         && Look(s3, P) == Mapped(x.pfn + (w - x.u), x.flags)
      else Look(s3, P) == Look(s0, P)
  }

  lemma RemainsSo(g: Geometry, s0: State, s1: State, s2: State, s3: State, b: Path, v: nat, n: nat, pfn: nat,
                  flags: nat,
                  x: Work, k: nat)
    requires Fits(g, b, v, n) && Fits(g, b, x.u, x.m) && (x.u + x.m <= v || v + n <= x.u) && k <= x.m
    requires Created(g, s0, s1, b, v, n, pfn, flags) && Created(g, s1, s2, b, x.u, k, x.pfn, x.flags)
    requires Unmapped(g, s2, s3, b, v, n)
    ensures Remains(g, s0, s3, b, v, n, x, k)
  {
    hide At;
    hide Look;
    hide Pow;
    forall P | IsPath(P, g.levels) && Within(g, b, x.u, k, P) && !Within(g, b, v, n, P)
      ensures exists w: nat :: && x.u <= w < x.u + k && P == At(g, b, w)
                               && Look(s3, P) == Mapped(x.pfn + (w - x.u), x.flags)
    {
      var w: nat :| x.u <= w < x.u + k && P == At(g, b, w);
      assert Look(s2, At(g, b, w)) == Mapped(x.pfn + (w - x.u), x.flags);
    }
  }
}
