/**
 * What mapping and unmapping a range of pages mean for the translations, and when the unmapping loop, which steps
 * over whole 2 MiB blocks, visits every page of its range.
 */
module PageOps {
  import opened Options
  import opened PageTree
  import opened PageRanges
  import opened PageSteps

  /** Physical page numbers that survive a 32-bit address mask. */
  const BELOW_4G: nat := 0x100000

  // ---- Two-state relations over a range ----

  /** The range is mapped to consecutive pages from pfn; every other page translates as before. */
  ghost predicate Created(g: Geometry, s0: State, s1: State, b: Path, v: nat, n: nat, pfn: nat, flags: nat)
    requires |b| <= g.levels
  {
    && (forall k: nat | v <= k < v + n :: Look(s1, At(g, b, k)) == Mapped(pfn + (k - v), flags))
    && (forall P | IsPath(P, g.levels) && !Within(g, b, v, n, P) :: Look(s1, P) == Look(s0, P))
  }

  /** The range is unmapped; every other page translates as before. */
  ghost predicate Unmapped(g: Geometry, s0: State, s1: State, b: Path, v: nat, n: nat)
    requires |b| <= g.levels
  {
    && (forall k: nat | v <= k < v + n :: Look(s1, At(g, b, k)) == None)
    && (forall P | IsPath(P, g.levels) && !Within(g, b, v, n, P) :: Look(s1, P) == Look(s0, P))
  }

  /** Entries above the last level that are on no walk of the range are kept. */
  ghost predicate Kept(g: Geometry, s0: State, s1: State, b: Path, v: nat, n: nat)
    requires |b| <= g.levels
  {
    forall p, i {:trigger SlotKept(s0, s1, p, i)} ::
      |p| + 1 < g.levels && !Touches(g, b, v, n, p + [i]) ==> SlotKept(s0, s1, p, i)
  }

  /** The block of page P, below b, lies within the range. */
  ghost predicate Inside(g: Geometry, b: Path, v: nat, n: nat, P: Path)
    requires |b| < g.levels == |P|
  {
    exists w: nat ::
      v <= BlockStart(w) && BlockStart(w) + ENTRIES <= v + n && P[..g.levels - 1] == At(g, b, w)[..g.levels - 1]
  }

  /** A 2 MiB entry is an old one, or lies within the range. */
  ghost predicate NewBigInside(g: Geometry, s0: State, s1: State, b: Path, v: nat, n: nat)
    requires |b| < g.levels
  {
    g.levels >= 2 ==>
      forall Q {:trigger BigSlot(g, s1, Q)} | IsPath(Q, g.levels) && BigSlot(g, s1, Q).Page? ::
        BigSlot(g, s1, Q) == BigSlot(g, s0, Q) || Inside(g, b, v, n, Q)
  }

  /** A well-formed successor in which nothing but the tree changed, and in it only the walks of the range. */
  ghost predicate RangeStep(g: Geometry, s0: State, s1: State, b: Path, v: nat, n: nat)
    requires |b| < g.levels
  {
    && Good(g, s0) && Good(g, s1) && Framed(s0, s1) && Rooted(s0, s1, b)
    && Kept(g, s0, s1, b, v, n) && NewBigInside(g, s0, s1, b, v, n)
  }

  lemma WithinSplit(g: Geometry, b: Path, v: nat, j: nat, n: nat, P: Path)
    requires |b| <= g.levels && j <= n
    ensures Within(g, b, v, n, P) <==> Within(g, b, v, j, P) || Within(g, b, v + j, n - j, P)
  {
    if Within(g, b, v, n, P) {
      var k: nat :| v <= k < v + n && P == At(g, b, k);
      assert k < v + j || v + j <= k < v + j + (n - j);
    }
  }

  lemma WithinOne(g: Geometry, b: Path, v: nat, k: nat, n: nat)
    requires Fits(g, b, v, n) && k < Pow(g.levels - |b|)
    ensures Within(g, b, v, n, At(g, b, k)) <==> v <= k < v + n
  {
    if Within(g, b, v, n, At(g, b, k)) {
      var j: nat :| v <= j < v + n && At(g, b, k) == At(g, b, j);
      AtInjective(g, b, k, j);
    }
  }

  lemma CreatedChain(g: Geometry, s0: State, s1: State, s2: State, b: Path, v: nat, j: nat, n: nat, pfn: nat,
                     flags: nat)
    requires Fits(g, b, v, n) && j <= n && [] in s0.at && [] in s1.at && [] in s2.at
    requires Created(g, s0, s1, b, v, j, pfn, flags) && Created(g, s1, s2, b, v + j, n - j, pfn + j, flags)
    ensures Created(g, s0, s2, b, v, n, pfn, flags)
  {
    hide Look;
    hide At;
    hide Within;
    forall k: nat | v <= k < v + n ensures Look(s2, At(g, b, k)) == Mapped(pfn + (k - v), flags) {
      if k < v + j {
        AtIsPath(g, b, k);
        WithinOne(g, b, v + j, k, n - j);
      }
    }
    forall P | IsPath(P, g.levels) && !Within(g, b, v, n, P) ensures Look(s2, P) == Look(s0, P) {
      WithinSplit(g, b, v, j, n, P);
    }
  }

  lemma UnmappedChain(g: Geometry, s0: State, s1: State, s2: State, b: Path, v: nat, j: nat, n: nat)
    requires Fits(g, b, v, n) && j <= n && [] in s0.at && [] in s1.at && [] in s2.at
    requires Unmapped(g, s0, s1, b, v, j) && Unmapped(g, s1, s2, b, v + j, n - j)
    ensures Unmapped(g, s0, s2, b, v, n)
  {
    hide Look;
    hide At;
    hide Within;
    forall k: nat | v <= k < v + n ensures Look(s2, At(g, b, k)) == None {
      if k < v + j {
        AtIsPath(g, b, k);
        WithinOne(g, b, v + j, k, n - j);
      }
    }
    forall P | IsPath(P, g.levels) && !Within(g, b, v, n, P) ensures Look(s2, P) == Look(s0, P) {
      WithinSplit(g, b, v, j, n, P);
    }
  }

  lemma RangeStepSelf(g: Geometry, s: State, b: Path, v: nat)
    requires Good(g, s) && b in s.at && |b| < g.levels
    ensures RangeStep(g, s, s, b, v, 0)
  {
  }

  /** A step along the walk of one page of a range extends the range. */
  lemma RangeStepOne(g: Geometry, s0: State, s1: State, s2: State, b: Path, v: nat, j: nat, n: nat, w: nat)
    requires |b| < g.levels && j <= n && v <= w < v + n
    requires RangeStep(g, s0, s1, b, v, j) && Step(g, s1, s2, b, At(g, b, w))
    requires NoNewBig(g, s1, s2) || NewBigInside(g, s1, s2, b, v, n)
    ensures RangeStep(g, s0, s2, b, v, n)
  {
    hide At;
    hide Good;
    hide Slot;
    forall p: Path, i: nat | |p| + 1 < g.levels && !Touches(g, b, v, n, p + [i]) ensures SlotKept(s0, s2, p, i) {
      assert !Touches(g, b, v, j, p + [i]);
      assert SlotKept(s0, s1, p, i) && SlotKept(s1, s2, p, i);
    }
    NewBigMore(g, s0, s1, b, v, j, v, n);
  }

  lemma NewBigMore(g: Geometry, s0: State, s1: State, b: Path, v: nat, j: nat, v': nat, n: nat)
    requires |b| < g.levels && v' <= v && v + j <= v' + n && NewBigInside(g, s0, s1, b, v, j)
    ensures NewBigInside(g, s0, s1, b, v', n)
  {
    hide PathOf;
    hide Slot;
    if g.levels >= 2 {
      forall Q | IsPath(Q, g.levels) && BigSlot(g, s1, Q).Page?
        ensures BigSlot(g, s1, Q) == BigSlot(g, s0, Q) || Inside(g, b, v', n, Q)
      {
        if Inside(g, b, v, j, Q) {
          var w: nat :| v <= BlockStart(w) && BlockStart(w) + ENTRIES <= v + j
                        && Q[..g.levels - 1] == At(g, b, w)[..g.levels - 1];
          assert v' <= BlockStart(w) && BlockStart(w) + ENTRIES <= v' + n;
        }
      }
    }
  }

  lemma RangeStepChain(g: Geometry, s0: State, s1: State, s2: State, b: Path, v: nat, j: nat, n: nat)
    requires |b| < g.levels && j <= n
    requires RangeStep(g, s0, s1, b, v, j) && RangeStep(g, s1, s2, b, v + j, n - j)
    ensures RangeStep(g, s0, s2, b, v, n)
  {
    hide At;
    hide Good;
    hide Slot;
    forall p: Path, i: nat | |p| + 1 < g.levels && !Touches(g, b, v, n, p + [i]) ensures SlotKept(s0, s2, p, i) {
      assert !Touches(g, b, v, j, p + [i]);
      assert !Touches(g, b, v + j, n - j, p + [i]);
      assert SlotKept(s0, s1, p, i) && SlotKept(s1, s2, p, i);
    }
    NewBigMore(g, s0, s1, b, v, j, v, n);
    NewBigMore(g, s1, s2, b, v + j, n - j, v, n);
  }

  // ---- Exact unmapping ----

  /**
   * Page w does not derail the unmapping of [v, v + n):
   *  - a block without entry is entered at its start, or is the last one;
   *  - a 2 MiB page lies within the range, or it will be split, which needs it below 4 GiB and reached with less
   *    than a block to go or at its start;
   *  - a block with a page table that is not the last one ends with a mapped page, so that its table survives until
   *    the walk has left it.
   */
  ghost predicate CleanAt(g: Geometry, s: State, b: Path, v: nat, n: nat, split: bool, w: nat)
    requires HasBig(g, b)
  {
    var P, start := At(g, b, w), BlockStart(w);
    var e := BigSlot(g, s, P);
    && (ReachesBig(g, s, P) && e.Absent? ==> v <= start || v + n <= start + ENTRIES)
    && (e.Page? ==> || (v <= start && start + ENTRIES <= v + n)
                    || (split && (v <= start || n < ENTRIES) && e.pfn < BELOW_4G))
    && (e.Next? && w % ENTRIES == ENTRIES - 1 && w + 1 < v + n ==> Look(s, P).Some?)
  }

  /** The range can be unmapped exactly; `split` allows 2 MiB pages to be split for it. */
  ghost predicate Clean(g: Geometry, s: State, b: Path, v: nat, n: nat, split: bool)
    requires |b| <= g.levels
  {
    HasBig(g, b) ==> forall w: nat | v <= w < v + n :: CleanAt(g, s, b, v, n, split, w)
  }

  /** The unmapping loop handles page v by one step over a 2 MiB entry. */
  ghost predicate StepsBlock(g: Geometry, s: State, b: Path, v: nat, n: nat)
    requires |b| < g.levels
  {
    && HasBig(g, b) && ReachesBig(g, s, At(g, b, v))
    && (BigSlot(g, s, At(g, b, v)).Absent? || (BigSlot(g, s, At(g, b, v)).Page? && ENTRIES <= n))
  }

  /** One round of the unmapping loop at page v: what it steps over and what it leaves. */
  ghost predicate Round(g: Geometry, s0: State, s1: State, b: Path, v: nat, n: nat, k: nat)
    requires |b| < g.levels
  {
    var P := At(g, b, v);
    && Step(g, s0, s1, b, P) && NoNewBig(g, s0, s1)
    && (k == if StepsBlock(g, s0, b, v, n) then ENTRIES else 1)
    && (forall Q | IsPath(Q, g.levels) && !(P[..if k == 1 then g.levels else g.levels - 1] <= Q) ::
          Look(s1, Q) == Look(s0, Q))
    && (forall Q | IsPath(Q, g.levels) && P[..if k == 1 then g.levels else g.levels - 1] <= Q :: Look(s1, Q) == None)
    && (forall q | q in s1.at && q !in s0.at :: |q| == g.levels - 1)
  }
}
