/**
 * What mapping and unmapping do to any tree, including the 2 MiB pages that have to be split for it and those that
 * are cleared as a whole: outside the range only pages of a 2 MiB page that the range runs into can change.
 */
module PageOver {
  import opened Options
  import opened PageTree
  import opened PageRanges
  import opened PageSteps
  import opened PageOps
  import opened PageClean
  import opened PageRounds
  import opened PageMaps

  /** P lies in a 2 MiB page that the range runs into. */
  ghost predicate Hit(g: Geometry, s: State, b: Path, v: nat, n: nat, P: Path)
    requires |b| <= g.levels == |P|
  {
    HasBig(g, b) && BigSlot(g, s, P).Page? && Touches(g, b, v, n, P[..g.levels - 1])
  }

  /** What P translates to once the 2 MiB pages that the range runs into have been split. */
  ghost function Redirected(g: Geometry, s: State, b: Path, v: nat, n: nat, P: Path): Option<Mapping>
    requires |b| <= g.levels == |P|
  {
    if Hit(g, s, b, v, n, P) then
      Some(Mapping(BigSlot(g, s, P).pfn % BELOW_4G + P[g.levels - 1], BigSlot(g, s, P).flags))
    else Look(s, P)
  }

  /** The range is mapped to consecutive pages from pfn; other pages change as far as 2 MiB pages were split for it. */
  ghost predicate CreatedOver(g: Geometry, s0: State, s1: State, b: Path, v: nat, n: nat, pfn: nat, flags: nat)
    requires |b| <= g.levels
  {
    && (forall k: nat | v <= k < v + n :: Look(s1, At(g, b, k)) == Mapped(pfn + (k - v), flags))
    && (forall P | IsPath(P, g.levels) && !Within(g, b, v, n, P) :: Look(s1, P) == Redirected(g, s0, b, v, n, P))
  }

  /** A page outside the range that it does not hit. */
  ghost predicate Spared(g: Geometry, s: State, b: Path, v: nat, n: nat, P: Path)
    requires |b| <= g.levels
  {
    IsPath(P, g.levels) && !Within(g, b, v, n, P) && !Hit(g, s, b, v, n, P)
  }

  /** A call on the range: it works on its walks, and outside it only pages that it hits translate differently. */
  ghost predicate Worked(g: Geometry, s0: State, s1: State, b: Path, v: nat, n: nat)
    requires |b| < g.levels
  {
    && RangeStep(g, s0, s1, b, v, n)
    && (forall P | Spared(g, s0, b, v, n, P) :: Look(s1, P) == Look(s0, P))
  }

  /** The 2 MiB pages that the range runs through lie within it. */
  ghost predicate BlocksInside(g: Geometry, s: State, b: Path, v: nat, n: nat) {
    HasBig(g, b) ==>
      forall w: nat | v <= w < v + n && BigSlot(g, s, At(g, b, w)).Page? ::
        v <= BlockStart(w) && BlockStart(w) + ENTRIES <= v + n
  }

  // ---- Blocks and ranges ----

  /** A page outside a range is not in a block inside it. */
  lemma NotInside(g: Geometry, b: Path, u: nat, m: nat, w: nat)
    requires HasBig(g, b) && Fits(g, b, u, m) && w < Pow(g.levels - |b|) && !(u <= w < u + m)
    ensures !Inside(g, b, u, m, At(g, b, w))
  {
    hide PathOf;
    hide Pow;
    if Inside(g, b, u, m, At(g, b, w)) {
      var x: nat :| u <= BlockStart(x) && BlockStart(x) + ENTRIES <= u + m
                    && At(g, b, w)[..g.levels - 1] == At(g, b, x)[..g.levels - 1];
      SameBlock(g, b, w, x);
    }
  }

  lemma InsideWithin(g: Geometry, b: Path, v: nat, n: nat, P: Path)
    requires |b| < g.levels && IsPath(P, g.levels) && Inside(g, b, v, n, P)
    ensures Within(g, b, v, n, P)
  {
    hide At;
    var w: nat :| v <= BlockStart(w) && BlockStart(w) + ENTRIES <= v + n
                  && P[..g.levels - 1] == At(g, b, w)[..g.levels - 1];
    UnderBlock(g, b, w, P);
    assert P[g.levels - 1] < ENTRIES;
  }

  /** The pages of a block have the same 2 MiB entry. */
  lemma SameSlot(g: Geometry, s: State, P: Path, Q: Path)
    requires |P| == |Q| == g.levels >= 2 && P[..g.levels - 1] <= Q
    ensures BigSlot(g, s, P) == BigSlot(g, s, Q)
  {
    var d := g.levels - 2;
    assert P[..d] == P[..d + 1][..d] == Q[..d];
    assert P[d] == P[..d + 1][d] == Q[d];
  }

  lemma TouchesLonger(g: Geometry, b: Path, v: nat, j: nat, n: nat, q: Path)
    requires |b| <= g.levels && j <= n
    ensures Touches(g, b, v, n, q) <==> Touches(g, b, v, j, q) || Touches(g, b, v + j, n - j, q)
  {
    if Touches(g, b, v, n, q) {
      var k: nat :| v <= k < v + n && q <= At(g, b, k);
      assert k < v + j || v + j <= k < v + j + (n - j);
    }
  }

  /** A block whose pages are not in the range has its old entry. */
  lemma SlotStays(g: Geometry, s0: State, s: State, b: Path, v: nat, n: nat, P: Path)
    requires HasBig(g, b) && |P| == g.levels && Kept(g, s0, s, b, v, n) && !Touches(g, b, v, n, P[..g.levels - 1])
    ensures BigSlot(g, s, P) == BigSlot(g, s0, P)
  {
    hide At;
    hide Slot;
    var d := g.levels - 2;
    assert P[..d] + [P[d]] == P[..d + 1];
    assert SlotKept(s0, s, P[..d], P[d]);
  }

  // ---- Calm preparations ----

  lemma RangeStepMore(g: Geometry, s0: State, s1: State, b: Path, v: nat, j: nat, n: nat)
    requires |b| < g.levels && j <= n && RangeStep(g, s0, s1, b, v, j)
    ensures RangeStep(g, s0, s1, b, v, n)
  {
    NewBigMore(g, s0, s1, b, v, j, v, n);
    hide At;
    hide Good;
    hide SlotKept;
    forall p: Path, i: nat | |p| + 1 < g.levels && !Touches(g, b, v, n, p + [i]) ensures SlotKept(s0, s1, p, i) {
      assert !Touches(g, b, v, j, p + [i]);
    }
  }

  lemma RangeStepSame(g: Geometry, s0: State, s1: State, s2: State, b: Path, v: nat, n: nat)
    requires |b| < g.levels && RangeStep(g, s0, s1, b, v, n) && RangeStep(g, s1, s2, b, v, n)
    ensures RangeStep(g, s0, s2, b, v, n)
  {
    hide At;
    hide Good;
    hide Slot;
    hide Touches;
    forall p: Path, i: nat | |p| + 1 < g.levels && !Touches(g, b, v, n, p + [i]) ensures SlotKept(s0, s2, p, i) {
      assert SlotKept(s0, s1, p, i) && SlotKept(s1, s2, p, i);
    }
  }

  lemma CalmThenStep(g: Geometry, s0: State, s1: State, s2: State, b: Path, v: nat, n: nat)
    requires |b| < g.levels && n > 0 && Calm(g, s0, s1, b, At(g, b, v)) && RangeStep(g, s1, s2, b, v, n)
    ensures RangeStep(g, s0, s2, b, v, n)
  {
    hide At;
    hide Good;
    hide Framed;
    hide Kept;
    hide KeptBeside;
    hide Lookup;
    RangeStepSelf(g, s0, b, v);
    RangeStepOne(g, s0, s0, s1, b, v, 0, n, v);
    RangeStepSame(g, s0, s1, s2, b, v, n);
  }

  /** Calm preparations on the walk of the first page belong to the mapping of the range. */
  lemma CalmThenMap(g: Geometry, s0: State, s1: State, s2: State, b: Path, v: nat, n: nat, pfn: nat, flags: nat)
    requires |b| < g.levels && n > 0 && Calm(g, s0, s1, b, At(g, b, v))
    requires RangeStep(g, s1, s2, b, v, n) && Created(g, s1, s2, b, v, n, pfn, flags)
    ensures RangeStep(g, s0, s2, b, v, n) && Created(g, s0, s2, b, v, n, pfn, flags)
  {
    hide At;
    hide Good;
    hide Framed;
    hide Kept;
    hide KeptBeside;
    hide Lookup;
    CalmThenStep(g, s0, s1, s2, b, v, n);
  }

  // ---- One round of a mapping ----

  lemma CreatedIsOver(g: Geometry, s0: State, s1: State, b: Path, v: nat, n: nat, pfn: nat, flags: nat)
    requires |b| <= g.levels && !HasBig(g, b) && Created(g, s0, s1, b, v, n, pfn, flags)
    ensures CreatedOver(g, s0, s1, b, v, n, pfn, flags)
  {
    hide At;
    hide Look;
  }

  /** A page is mapped after the 2 MiB page in its place, if any, was split. */
  lemma OverOne(g: Geometry, s: State, mid: State, s1: State, b: Path, v: nat, pfn: nat, flags: nat)
    requires Fits(g, b, v, 1) && [] in s.at && [] in mid.at && Presplit(g, s, mid, b, v)
    requires mid == s && HasBig(g, b) ==> !BigSlot(g, s, At(g, b, v)).Page?
    requires Created(g, mid, s1, b, v, 1, pfn, flags)
    ensures CreatedOver(g, s, s1, b, v, 1, pfn, flags)
  {
    hide At;
    hide Look;
    hide Within;
    hide BigSlot;
    hide SplitDone;
    hide Pow;
    var X := At(g, b, v);
    assert Look(s1, At(g, b, v)) == Mapped(pfn + (v - v), flags);
    if HasBig(g, b) {
      forall P | IsPath(P, g.levels) && !Within(g, b, v, 1, P) ensures Look(s1, P) == Redirected(g, s, b, v, 1, P) {
        OneTouched(g, b, v, P);
        if P[..g.levels - 1] <= X {
          SameSlot(g, s, P, X);
        }
        if mid != s {
          SplitView(g, s, mid, b, v, P);
        }
      }
    } else {
      CreatedIsOver(g, s, s1, b, v, 1, pfn, flags);
    }
  }

  lemma OneTouched(g: Geometry, b: Path, v: nat, P: Path)
    requires |b| < g.levels == |P|
    ensures Touches(g, b, v, 1, P[..g.levels - 1]) <==> P[..g.levels - 1] <= At(g, b, v)
  {
    hide At;
  }

  lemma SplitView(g: Geometry, s: State, mid: State, b: Path, v: nat, P: Path)
    requires HasBig(g, b) && SplitDone(g, s, mid, b, v) && IsPath(P, g.levels)
    ensures BigSlot(g, s, At(g, b, v)).Page?
    ensures Look(mid, P) == if P[..g.levels - 1] <= At(g, b, v)
                            then Some(Mapping(BigSlot(g, s, At(g, b, v)).pfn % BELOW_4G + P[g.levels - 1],
                                              BigSlot(g, s, At(g, b, v)).flags))
                            else Look(s, P)
  {
    hide At;
    hide Good;
    hide Framed;
    hide KeptBeside;
    hide NoNewBig;
    hide Lookup;
    var X := At(g, b, v);
    assert P[..g.levels - 1] <= X <==> X[..g.levels - 1] <= P;
  }

  // ---- Rounds of a mapping put together ----

  /** After j pages of the range, one page more. */
  lemma OverPage(g: Geometry, s0: State, s: State, s1: State, b: Path, v: nat, j: nat, pfn: nat, flags: nat)
    requires Fits(g, b, v, j + 1) && RangeStep(g, s0, s, b, v, j) && BlocksInside(g, s, b, v, j)
    requires CreatedOver(g, s0, s, b, v, j, pfn, flags) && CreatedOver(g, s, s1, b, v + j, 1, pfn + j, flags)
    ensures CreatedOver(g, s0, s1, b, v, j + 1, pfn, flags)
  {
    hide At;
    hide Look;
    hide Within;
    hide RangeStep;
    hide Redirected;
    hide BlocksInside;
    hide Pow;
    forall k: nat | v <= k < v + (j + 1) ensures Look(s1, At(g, b, k)) == Mapped(pfn + (k - v), flags) {
      if k < v + j {
        AtIsPath(g, b, k);
        WithinOne(g, b, v + j, k, 1);
        NotHit(g, s, b, v, j, k);
        assert Look(s, At(g, b, k)) == Mapped(pfn + (k - v), flags);
      }
    }
    forall P | IsPath(P, g.levels) && !Within(g, b, v, j + 1, P)
      ensures Look(s1, P) == Redirected(g, s0, b, v, j + 1, P)
    {
      WithinSplit(g, b, v, j, j + 1, P);
      RedirectedTwice(g, s0, s, b, v, j, P);
    }
  }

  lemma NotHit(g: Geometry, s: State, b: Path, v: nat, j: nat, k: nat)
    requires Fits(g, b, v, j + 1) && BlocksInside(g, s, b, v, j) && v <= k < v + j
    ensures Redirected(g, s, b, v + j, 1, At(g, b, k)) == Look(s, At(g, b, k))
  {
    hide At;
    hide Look;
    hide Pow;
    var P := At(g, b, k);
    if Hit(g, s, b, v + j, 1, P) {
      AtIsPath(g, b, v + j);
      OneTouched(g, b, v + j, P);
      SameBlock(g, b, k, v + j);
    }
  }

  lemma RedirectedTwice(g: Geometry, s0: State, s: State, b: Path, v: nat, j: nat, P: Path)
    requires Fits(g, b, v, j + 1) && RangeStep(g, s0, s, b, v, j) && IsPath(P, g.levels)
    requires Look(s, P) == Redirected(g, s0, b, v, j, P)
    ensures Redirected(g, s, b, v + j, 1, P) == Redirected(g, s0, b, v, j + 1, P)
  {
    hide At;
    hide Good;
    hide Framed;
    hide Kept;
    hide Look;
    hide BigSlot;
    hide Touches;
    hide Pow;
    if HasBig(g, b) {
      var q, X := P[..g.levels - 1], At(g, b, v + j);
      TouchesLonger(g, b, v, j, j + 1, q);
      OneTouched(g, b, v + j, P);
      if q <= X {
        SameSlot(g, s, P, X);
        SameSlot(g, s0, P, X);
        AtIsPath(g, b, v + j);
        NotInside(g, b, v, j, v + j);
      }
      if !Touches(g, b, v, j, q) {
        SlotStays(g, s0, s, b, v, j, P);
      }
    }
  }

  /** After j pages of the range, one 2 MiB entry more. */
  lemma OverBlock(g: Geometry, s0: State, s: State, s1: State, b: Path, v: nat, j: nat, pfn: nat, flags: nat)
    requires HasBig(g, b) && Fits(g, b, v, j + ENTRIES) && (v + j) % ENTRIES == 0
    requires CreatedOver(g, s0, s, b, v, j, pfn, flags) && Created(g, s, s1, b, v + j, ENTRIES, pfn + j, flags)
    ensures CreatedOver(g, s0, s1, b, v, j + ENTRIES, pfn, flags)
  {
    hide At;
    hide Look;
    hide Within;
    hide Touches;
    hide BigSlot;
    hide Pow;
    var n := j + ENTRIES;
    forall k: nat | v <= k < v + n ensures Look(s1, At(g, b, k)) == Mapped(pfn + (k - v), flags) {
      if k < v + j {
        AtIsPath(g, b, k);
        WithinOne(g, b, v + j, k, ENTRIES);
        assert Look(s, At(g, b, k)) == Mapped(pfn + (k - v), flags);
      }
    }
    forall P | IsPath(P, g.levels) && !Within(g, b, v, n, P) ensures Look(s1, P) == Redirected(g, s0, b, v, n, P) {
      WithinSplit(g, b, v, j, n, P);
      TouchesLonger(g, b, v, j, n, P[..g.levels - 1]);
      BlockUntouched(g, b, v + j, P);
    }
  }

  lemma BlockUntouched(g: Geometry, b: Path, v: nat, P: Path)
    requires HasBig(g, b) && Fits(g, b, v, ENTRIES) && v % ENTRIES == 0 && IsPath(P, g.levels)
    ensures Touches(g, b, v, ENTRIES, P[..g.levels - 1]) ==> Within(g, b, v, ENTRIES, P)
  {
    hide At;
    hide Pow;
    TouchesBlock(g, b, v, P[..g.levels - 1]);
    WithinBlock(g, b, v, P);
  }

  /** Calm preparations that came to nothing. */
  lemma OverCalm(g: Geometry, s0: State, s: State, s1: State, b: Path, v: nat, j: nat, pfn: nat, flags: nat, P: Path)
    requires |b| <= g.levels && IsPath(b, |b|) && CreatedOver(g, s0, s, b, v, j, pfn, flags) && Calm(g, s, s1, b, P)
    ensures CreatedOver(g, s0, s1, b, v, j, pfn, flags)
  {
    hide At;
    hide Good;
    hide Framed;
    hide KeptBeside;
    hide NoNewBig;
    hide Lookup;
    hide Redirected;
    hide Within;
    forall k: nat | v <= k < v + j ensures Look(s1, At(g, b, k)) == Mapped(pfn + (k - v), flags) {
      AtIsPath(g, b, k);
    }
  }

  // ---- When a mapping is exact ----

  /** A 2 MiB page that the range covers only in part lies below 4 GiB. */
  ghost predicate PartLow(g: Geometry, s: State, b: Path, v: nat, n: nat, w: nat)
    requires |b| < g.levels
  {
    HasBig(g, b) && BigSlot(g, s, At(g, b, w)).Page? && !(v <= BlockStart(w) && BlockStart(w) + ENTRIES <= v + n) ==>
      BigSlot(g, s, At(g, b, w)).pfn < BELOW_4G
  }

  /** A mapping changes nothing outside its range if and only if it splits no 2 MiB page at or above 4 GiB in part. */
  lemma MapExactIff(g: Geometry, s0: State, s1: State, b: Path, v: nat, n: nat, pfn: nat, flags: nat)
    requires Good(g, s0) && Fits(g, b, v, n) && CreatedOver(g, s0, s1, b, v, n, pfn, flags)
    ensures Created(g, s0, s1, b, v, n, pfn, flags) <==> forall w: nat | v <= w < v + n :: PartLow(g, s0, b, v, n, w)
  {
    hide At;
    hide Good;
    hide Look;
    hide Within;
    hide PartLow;
    hide Redirected;
    hide Pow;
    if forall w: nat | v <= w < v + n :: PartLow(g, s0, b, v, n, w) {
      forall P | IsPath(P, g.levels) && !Within(g, b, v, n, P) ensures Look(s1, P) == Look(s0, P) {
        LowSame(g, s0, b, v, n, P);
      }
    }
    if Created(g, s0, s1, b, v, n, pfn, flags) {
      forall w: nat | v <= w < v + n ensures PartLow(g, s0, b, v, n, w) {
        if !PartLow(g, s0, b, v, n, w) {
          var P := HighMoves(g, s0, b, v, n, w);
        }
      }
    }
  }

  lemma LowSame(g: Geometry, s: State, b: Path, v: nat, n: nat, P: Path)
    requires Good(g, s) && |b| < g.levels && IsPath(b, |b|) && IsPath(P, g.levels) && !Within(g, b, v, n, P)
    requires forall w: nat | v <= w < v + n :: PartLow(g, s, b, v, n, w)
    ensures Redirected(g, s, b, v, n, P) == Look(s, P)
  {
    hide At;
    hide Good;
    hide Look;
    hide Slot;
    if Hit(g, s, b, v, n, P) {
      var w: nat :| v <= w < v + n && P[..g.levels - 1] <= At(g, b, w);
      AtIsPath(g, b, w);
      SameSlot(g, s, P, At(g, b, w));
      assert At(g, b, w)[..g.levels - 1] <= P;
      UnderBlock(g, b, w, P);
      assert PartLow(g, s, b, v, n, w);
      UnderBigPage(g, s, P);
    }
  }

  lemma HighMoves(g: Geometry, s: State, b: Path, v: nat, n: nat, w: nat) returns (P: Path)
    requires Good(g, s) && Fits(g, b, v, n) && v <= w < v + n && !PartLow(g, s, b, v, n, w)
    ensures IsPath(P, g.levels) && !Within(g, b, v, n, P) && Redirected(g, s, b, v, n, P) != Look(s, P)
  {
    hide At;
    hide Good;
    hide Look;
    hide Slot;
    hide Pow;
    var x := if BlockStart(w) < v then BlockStart(w) else BlockStart(w) + ENTRIES - 1;
    BlockFits(g, b, w);
    P := At(g, b, x);
    AtIsPath(g, b, x);
    AtIsPath(g, b, w);
    SameBlock(g, b, x, w);
    SameSlot(g, s, P, At(g, b, w));
    WithinOne(g, b, v, x, n);
    assert P[..g.levels - 1] <= At(g, b, w);
    UnderBigPage(g, s, P);
  }

  /** The pages of a block exist if one of them does. */
  lemma BlockFits(g: Geometry, b: Path, w: nat)
    requires |b| < g.levels && w < Pow(g.levels - |b|)
    ensures BlockStart(w) + ENTRIES <= Pow(g.levels - |b|)
  {
    assert Pow(g.levels - |b|) == ENTRIES * Pow(g.levels - |b| - 1);
  }

  // ---- Any call is work on its range ----

  lemma MapWorks(g: Geometry, s0: State, s1: State, b: Path, v: nat, k: nat, n: nat, pfn: nat, flags: nat)
    requires |b| < g.levels && k <= n && RangeStep(g, s0, s1, b, v, n) && CreatedOver(g, s0, s1, b, v, k, pfn, flags)
    ensures Worked(g, s0, s1, b, v, n)
  {
    hide At;
    hide Look;
    hide RangeStep;
    hide BigSlot;
    forall P | Spared(g, s0, b, v, n, P) ensures Look(s1, P) == Look(s0, P) {
      WithinSplit(g, b, v, k, n, P);
      if HasBig(g, b) {
        TouchesLonger(g, b, v, k, n, P[..g.levels - 1]);
      }
    }
  }

  /** A page outside the range that is not hit is not under a 2 MiB page on the walk of a page of the range later on. */
  lemma NeverHit(g: Geometry, s0: State, s: State, b: Path, v: nat, n: nat, u: nat, P: Path)
    requires HasBig(g, b) && RangeStep(g, s0, s, b, v, n) && v <= u < v + n && IsPath(P, g.levels)
    requires !Within(g, b, v, n, P) && !Hit(g, s0, b, v, n, P) && At(g, b, u)[..g.levels - 1] <= P
    ensures !BigSlot(g, s, At(g, b, u)).Page?
  {
    hide At;
    hide Good;
    hide Framed;
    hide Kept;
    hide Slot;
    SameSlot(g, s, At(g, b, u), P);
    assert P[..g.levels - 1] <= At(g, b, u);
    if BigSlot(g, s, P).Page? {
      if Inside(g, b, v, n, P) {
        InsideWithin(g, b, v, n, P);
      }
    }
  }

  lemma RoundWorks(g: Geometry, s0: State, s: State, s1: State, b: Path, v: nat, n: nat, u: nat, m: nat, k: nat)
    requires Fits(g, b, v, n) && v <= u < v + n && Worked(g, s0, s, b, v, n) && Round(g, s, s1, b, u, m, k)
    ensures Worked(g, s0, s1, b, v, n)
  {
    hide At;
    hide Good;
    hide Look;
    hide Slot;
    hide Kept;
    hide Step;
    hide Framed;
    hide NoNewBig;
    hide NewBigInside;
    hide Pow;
    RangeStepOne(g, s0, s, s1, b, v, n, n, u);
    AtIsPath(g, b, u);
    var X := At(g, b, u);
    forall P | Spared(g, s0, b, v, n, P) ensures Look(s1, P) == Look(s0, P) {
      assert Look(s, P) == Look(s0, P);
      if k == 1 {
        assert X[..g.levels] == X && P[..g.levels] == P;
      } else if X[..g.levels - 1] <= P {
        NeverHit(g, s0, s, b, v, n, u, P);
        HoleBelow(g, s, X, P);
      }
    }
  }

  lemma HoleBelow(g: Geometry, s: State, P: Path, Q: Path)
    requires Good(g, s) && g.levels >= 2 && IsPath(P, g.levels) && IsPath(Q, g.levels) && P[..g.levels - 1] <= Q
    requires ReachesBig(g, s, P) && BigSlot(g, s, P).Absent?
    ensures Look(s, Q) == None
  {
    hide Shape;
    SameSlot(g, s, P, Q);
    assert P[..g.levels - 2] == P[..g.levels - 1][..g.levels - 2] == Q[..g.levels - 2];
    BigLookup(g, s, Q);
  }

  lemma SplitWorks(g: Geometry, s0: State, s: State, mid: State, b: Path, v: nat, n: nat, u: nat)
    requires Fits(g, b, v, n) && v <= u < v + n && Worked(g, s0, s, b, v, n) && Presplit(g, s, mid, b, u)
    ensures Worked(g, s0, mid, b, v, n)
  {
    hide At;
    hide Good;
    hide Look;
    hide Slot;
    hide Kept;
    hide Step;
    hide Framed;
    hide NoNewBig;
    hide NewBigInside;
    hide SameOutside;
    hide Pow;
    if mid != s {
      RangeStepOne(g, s0, s, mid, b, v, n, n, u);
      AtIsPath(g, b, u);
      forall P | Spared(g, s0, b, v, n, P) ensures Look(mid, P) == Look(s0, P) {
        SplitView(g, s, mid, b, u, P);
        if At(g, b, u)[..g.levels - 1] <= P {
          NeverHit(g, s0, s, b, v, n, u, P);
        }
      }
    }
  }

  /** Whatever the tree, a chain of unmapping rounds is work on its range. */
  lemma {:induction false} RoundsWork(g: Geometry, ss: seq<State>, vs: seq<nat>, b: Path, v: nat, n: nat)
    requires Fits(g, b, v, n) && |ss| == |vs| > 0 && Rounds(g, ss, vs, b, v, n) && Good(g, ss[0]) && b in ss[0].at
    ensures Worked(g, ss[0], ss[|ss| - 1], b, v, n) && vs[|vs| - 1] >= v
  {
    hide Good;
    hide Round;
    hide Presplit;
    hide Worked;
    hide NeedsSplit;
    hide Pow;
    var i := |ss| - 1;
    if i == 0 {
      WorkedSelf(g, ss[0], b, v, n);
    } else {
      RoundsWork(g, ss[..i], vs[..i], b, v, n);
      assert SplitRound(g, ss[i - 1], ss[i], b, vs[i - 1], v + n - vs[i - 1], vs[i] - vs[i - 1]);
      var mid :| Presplit(g, ss[i - 1], mid, b, vs[i - 1])
                 && Round(g, mid, ss[i], b, vs[i - 1], v + n - vs[i - 1], vs[i] - vs[i - 1]);
      SplitWorks(g, ss[0], ss[i - 1], mid, b, v, n, vs[i - 1]);
      RoundWorks(g, ss[0], mid, ss[i], b, v, n, vs[i - 1], v + n - vs[i - 1], vs[i] - vs[i - 1]);
    }
  }

  lemma WorkedFacts(g: Geometry, s0: State, s1: State, b: Path, v: nat, n: nat)
    requires |b| < g.levels && Worked(g, s0, s1, b, v, n)
    ensures RangeStep(g, s0, s1, b, v, n)
  {
  }

  lemma WorkedSelf(g: Geometry, s: State, b: Path, v: nat, n: nat)
    requires |b| < g.levels && Good(g, s) && b in s.at
    ensures Worked(g, s, s, b, v, n)
  {
  }
}
