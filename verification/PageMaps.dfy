/** The pure content of one round of the mapping loop, with 4 KiB pages and with 2 MiB pages. */
module PageMaps {
  import opened Options
  import opened PageTree
  import opened PageRanges
  import opened PageSteps
  import opened PageOps
  import opened PageClean
  import opened PageRounds

  /** The round at page v of a mapping with n pages to go writes a 2 MiB entry. */
  predicate TakesBlock(g: Geometry, b: Path, v: nat, n: nat, pfn: nat) {
    HasBig(g, b) && ENTRIES <= n && v % ENTRIES == 0 && pfn % ENTRIES == 0
  }

  // ---- 4 KiB pages ----

  /** Writing the last-level entry maps exactly this page. */
  lemma MapLeaf(g: Geometry, s: State, s1: State, b: Path, v: nat, pfn: nat, flags: nat)
    requires Good(g, s) && |b| < g.levels && IsPath(b, |b|) && Spot(g, s, b, v, g.levels - 1)
    requires At(g, b, v)[g.levels - 1] < |s.mem[s.at[At(g, b, v)[..g.levels - 1]]]|
    requires s1 == Written(s, At(g, b, v), g.levels - 1, Terminal(pfn, flags))
    ensures Step(g, s, s1, b, At(g, b, v)) && NoNewBig(g, s, s1) && Created(g, s, s1, b, v, 1, pfn, flags)
  {
    hide At;
    AtIsPath(g, b, v);
    var P, d := At(g, b, v), g.levels - 1;
    LeafNotNext(g, s, P);
    WriteEntry(g, s, b, P, d, Terminal(pfn, flags));
    WrittenBig(g, s, s1, P, d, Terminal(pfn, flags));
    LeafWritten(g, s1, P);
    assert P[..d + 1] == P;
    forall Q | IsPath(Q, g.levels) && !Within(g, b, v, 1, Q) ensures Look(s1, Q) == Look(s, Q) {
      assert P <= Q ==> P == Q;
    }
  }

  lemma LeafNotNext(g: Geometry, s: State, P: Path)
    requires Good(g, s) && IsPath(P, g.levels) && P[..g.levels - 1] in s.at
    ensures !Entry(s.mem, s.at[P[..g.levels - 1]], P[g.levels - 1]).Next?
  {
    var p := P[..g.levels - 1];
    assert LeadsDown(s.mem, s.at, p, P[g.levels - 1]);
    assert |p + [P[g.levels - 1]]| == g.levels;
  }

  lemma LeafWritten(g: Geometry, s: State, P: Path)
    requires Good(g, s) && IsPath(P, g.levels) && P[..g.levels - 1] in s.at
    ensures Look(s, P) ==
            match Entry(s.mem, s.at[P[..g.levels - 1]], P[g.levels - 1])
            case Page(pfn, flags) => Some(Mapping(pfn, flags))
            case _ => None
  {
    LeafNotNext(g, s, P);
    LeafLookup(g, s.mem, s.at, P, g.levels - 1);
    assert P[g.levels..] == [];
  }

  // ---- 2 MiB pages ----

  /** The table that holds the 2 MiB entry of v also holds something else, or it is the root of the structures. */
  ghost predicate Anchored(g: Geometry, s: State, b: Path, v: nat)
    requires HasBig(g, b)
  {
    var P, d := At(g, b, v), g.levels - 2;
    |b| == d || exists i: nat :: i != P[d] && Slot(s, P[..d], i) != Absent
  }

  /** With all pages of a block unmapped and no empty table left on its walk, the block has no entry. */
  lemma BlockEmpty(g: Geometry, s: State, b: Path, P: Path)
    requires Good(g, s) && g.big && IsPath(P, g.levels) && |b| + 2 <= g.levels && Tight(g, s, b, P)
    requires forall Q | IsPath(Q, g.levels) && P[..g.levels - 1] <= Q :: Look(s, Q) == None
    ensures BigSlot(g, s, P) == Absent
  {
    var d := g.levels - 2;
    BigLookup(g, s, P);
    if BigSlot(g, s, P).Next? {
      var t := s.at[P[..d + 1]];
      var i: nat :| i < ENTRIES && s.mem[t][i] != Absent;
      var Q := P[..d + 1] + [i];
      assert Q[..d + 1] == P[..d + 1] && Entry(s.mem, t, i) == s.mem[t][i];
      LeafNotNext(g, s, Q);
      LeafWritten(g, s, Q);
    }
  }

  /** All pages of the block of v have the walk of v above the last level. */
  lemma BlockWalks(g: Geometry, b: Path, v: nat, w: nat)
    requires HasBig(g, b) && IsPath(b, |b|) && Fits(g, b, v, ENTRIES) && v % ENTRIES == 0 && v <= w < v + ENTRIES
    ensures var P, W := At(g, b, v), At(g, b, w);
            |P| == g.levels && |W| == g.levels && W[..g.levels - 1] == P[..g.levels - 1]
  {
    hide At;
    hide Pow;
    AtIsPath(g, b, v);
    AtIsPath(g, b, w);
    AlignedBlock(v, w);
    SameBlock(g, b, v, w);
  }

  lemma TouchesBlock(g: Geometry, b: Path, v: nat, q: Path)
    requires HasBig(g, b) && IsPath(b, |b|) && Fits(g, b, v, ENTRIES) && v % ENTRIES == 0
    requires |q| < g.levels
    ensures Touches(g, b, v, ENTRIES, q) ==> q <= At(g, b, v)
  {
    hide At;
    if Touches(g, b, v, ENTRIES, q) {
      var w: nat :| v <= w < v + ENTRIES && q <= At(g, b, w);
      BlockWalks(g, b, v, w);
      assert q == At(g, b, w)[..g.levels - 1][..|q|] == At(g, b, v)[..|q|];
    }
  }

  lemma TightBlock(g: Geometry, s: State, b: Path, P: Path, W: Path)
    requires Good(g, s) && |P| == |W| == g.levels >= 1 && Tight(g, s, b, W) && W[..g.levels - 1] == P[..g.levels - 1]
    ensures Tight(g, s, b, P)
  {
    hide Good;
    forall k: nat | |b| < k < g.levels && P[..k] in s.at && s.at[P[..k]] < |s.mem|
      ensures !Blank(s.mem[s.at[P[..k]]])
    {
      assert W[..k] == W[..g.levels - 1][..k] == P[..k];
    }
  }

  /** What releasing the old mapping of the block leaves for the 2 MiB entry to be written into. */
  lemma BlockReleased(g: Geometry, s: State, s2: State, b: Path, v: nat, w: nat)
    requires HasBig(g, b) && Fits(g, b, v, ENTRIES) && v % ENTRIES == 0 && v <= w < v + ENTRIES
    requires Spot(g, s, b, v, g.levels - 2) && RangeStep(g, s, s2, b, v, ENTRIES)
    requires Unmapped(g, s, s2, b, v, ENTRIES) && Tight(g, s2, b, At(g, b, w))
    ensures BigSlot(g, s2, At(g, b, v)) == Absent
    ensures Anchored(g, s, b, v) ==>
              Spot(g, s2, b, v, g.levels - 2) && TableAt(g, s2, b, v, g.levels - 2) == TableAt(g, s, b, v, g.levels - 2)
    ensures !Anchored(g, s, b, v) ==> At(g, b, v)[..g.levels - 2] !in s2.at
  {
    hide At;
    hide Framed;
    hide Good;
    AtIsPath(g, b, v);
    var P, d := At(g, b, v), g.levels - 2;
    BlockWalks(g, b, v, w);
    TightBlock(g, s2, b, P, At(g, b, w));
    BlockUnmapped(g, s, s2, b, v);
    BlockEmpty(g, s2, b, P);
    forall i: nat | i != P[d]
      ensures Slot(s2, P[..d], i) == Slot(s, P[..d], i)
      ensures Slot(s, P[..d], i) != Absent ==> P[..d] in s2.at && s2.at[P[..d]] == s.at[P[..d]]
    {
      TouchesBlock(g, b, v, P[..d] + [i]);
      assert (P[..d] + [i])[d] == i && SlotKept(s, s2, P[..d], i);
    }
    if |b| == d {
      assert P[..d] == b;
    } else if Anchored(g, s, b, v) {
      var i: nat :| i != P[d] && Slot(s, P[..d], i) != Absent;
    } else if P[..d] in s2.at {
      NotBlankEntry(g, s2, b, P, d);
    }
  }

  lemma NotBlankEntry(g: Geometry, s: State, b: Path, P: Path, d: nat)
    requires Good(g, s) && |P| == g.levels && |b| < d < g.levels && P[..d] in s.at && Tight(g, s, b, P)
    ensures exists i: nat :: i < ENTRIES && Slot(s, P[..d], i) != Absent
  {
    var t := s.at[P[..d]];
    assert !Blank(s.mem[t]);
    var i: nat :| i < ENTRIES && s.mem[t][i] != Absent;
    assert Slot(s, P[..d], i) == s.mem[t][i];
  }

  lemma BlockUnmapped(g: Geometry, s: State, s2: State, b: Path, v: nat)
    requires HasBig(g, b) && Fits(g, b, v, ENTRIES) && v % ENTRIES == 0 && [] in s.at && [] in s2.at
    requires Unmapped(g, s, s2, b, v, ENTRIES)
    ensures forall Q | IsPath(Q, g.levels) && At(g, b, v)[..g.levels - 1] <= Q :: Look(s2, Q) == None
  {
    hide At;
    hide Lookup;
    AtIsPath(g, b, v);
    forall Q | IsPath(Q, g.levels) && At(g, b, v)[..g.levels - 1] <= Q ensures Look(s2, Q) == None {
      UnderBlock(g, b, v, Q);
    }
  }

  lemma BlockBig(g: Geometry, s: State, s1: State, b: Path, v: nat, e: Pte)
    requires HasBig(g, b) && v % ENTRIES == 0 && Good(g, s) && Spot(g, s, b, v, g.levels - 2)
    requires At(g, b, v)[g.levels - 2] < |s.mem[s.at[At(g, b, v)[..g.levels - 2]]]|
    requires s1 == Written(s, At(g, b, v), g.levels - 2, e)
    ensures NewBigInside(g, s, s1, b, v, ENTRIES)
  {
    hide At;
    hide Tables;
    hide Down;
    hide Up;
    hide Pages;
    var P, d := At(g, b, v), g.levels - 2;
    WrittenSlot(g, s, s1, P, d, e);
    forall Q | IsPath(Q, g.levels) && BigSlot(g, s1, Q).Page?
      ensures BigSlot(g, s1, Q) == BigSlot(g, s, Q) || Inside(g, b, v, ENTRIES, Q)
    {
      if Q[..d] == P[..d] && Q[d] == P[d] {
        assert Q[..d + 1] == Q[..d] + [Q[d]] == P[..d] + [P[d]] == P[..d + 1] && BlockStart(v) == v;
      }
    }
  }

  lemma WrittenSlot(g: Geometry, s: State, s1: State, P: Path, d: nat, e: Pte)
    requires Tables(g, s.mem, s.at) && d < |P| && P[..d] in s.at && P[d] < |s.mem[s.at[P[..d]]]|
    requires s1 == Written(s, P, d, e)
    ensures forall p, i :: !(p == P[..d] && i == P[d]) ==> Slot(s1, p, i) == Slot(s, p, i)
  {
  }

  /** The 2 MiB entry is written into a table that is still part of the tree: the block is mapped. */
  lemma MapBlock(g: Geometry, s: State, s2: State, s3: State, b: Path, v: nat, pfn: nat, flags: nat)
    requires HasBig(g, b) && Fits(g, b, v, ENTRIES) && v % ENTRIES == 0 && pfn % ENTRIES == 0 && flags % 2 == 1
    requires RangeStep(g, s, s2, b, v, ENTRIES) && Unmapped(g, s, s2, b, v, ENTRIES)
    requires Spot(g, s2, b, v, g.levels - 2) && BigSlot(g, s2, At(g, b, v)) == Absent
    requires At(g, b, v)[g.levels - 2] < |s2.mem[s2.at[At(g, b, v)[..g.levels - 2]]]|
    requires s3 == Written(s2, At(g, b, v), g.levels - 2, Page(pfn, flags))
    ensures RangeStep(g, s, s3, b, v, ENTRIES) && Created(g, s, s3, b, v, ENTRIES, pfn, flags)
    ensures BigSlot(g, s3, At(g, b, v)) == Page(pfn, flags)
  {
    hide At;
    hide Framed;
    hide Good;
    hide Kept;
    hide KeptBeside;
    hide Lookup;
    AtIsPath(g, b, v);
    var P, d := At(g, b, v), g.levels - 2;
    WriteEntry(g, s2, b, P, d, Page(pfn, flags));
    BlockBig(g, s2, s3, b, v, Page(pfn, flags));
    RangeStepOne(g, s, s2, s3, b, v, ENTRIES, ENTRIES, v);
    UnderBigPage(g, s3, P);
    BlockMapped(g, s, s2, s3, b, v, pfn, flags);
  }

  lemma BlockMapped(g: Geometry, s: State, s2: State, s3: State, b: Path, v: nat, pfn: nat, flags: nat)
    requires HasBig(g, b) && Fits(g, b, v, ENTRIES) && v % ENTRIES == 0 && flags % 2 == 1
    requires [] in s.at && [] in s2.at && s3.at == s2.at && Unmapped(g, s, s2, b, v, ENTRIES)
    requires SameOutside(g, s2.mem, s3.mem, s2.at[[]], At(g, b, v)[..g.levels - 1])
    requires forall Q | IsPath(Q, g.levels) && At(g, b, v)[..g.levels - 1] <= Q ::
               Look(s3, Q) == Some(Mapping(pfn + Q[g.levels - 1], flags))
    ensures Created(g, s, s3, b, v, ENTRIES, pfn, flags)
  {
    hide At;
    hide Lookup;
    hide Within;
    AtIsPath(g, b, v);
    forall k: nat | v <= k < v + ENTRIES ensures Look(s3, At(g, b, k)) == Mapped(pfn + (k - v), flags) {
      InBlock(g, b, v, k);
    }
    forall Q | IsPath(Q, g.levels) && !Within(g, b, v, ENTRIES, Q) ensures Look(s3, Q) == Look(s, Q) {
      WithinBlock(g, b, v, Q);
    }
  }

  lemma InBlock(g: Geometry, b: Path, v: nat, k: nat)
    requires HasBig(g, b) && Fits(g, b, v, ENTRIES) && v % ENTRIES == 0 && v <= k < v + ENTRIES
    ensures IsPath(At(g, b, k), g.levels) && |At(g, b, v)| == g.levels
    ensures At(g, b, v)[..g.levels - 1] <= At(g, b, k) && At(g, b, k)[g.levels - 1] == k - v
  {
    hide At;
    hide Pow;
    AtIsPath(g, b, k);
    BlockWalks(g, b, v, k);
    BlockPath(g, b, k);
    AlignedBlock(v, k);
  }

  lemma AlignedBlock(v: nat, k: nat)
    requires v % ENTRIES == 0 && v <= k < v + ENTRIES
    ensures k % ENTRIES == k - v && k / ENTRIES == v / ENTRIES
  {
  }

  lemma WithinBlock(g: Geometry, b: Path, v: nat, Q: Path)
    requires HasBig(g, b) && Fits(g, b, v, ENTRIES) && v % ENTRIES == 0 && IsPath(Q, g.levels)
    ensures |At(g, b, v)| == g.levels && (At(g, b, v)[..g.levels - 1] <= Q ==> Within(g, b, v, ENTRIES, Q))
  {
    hide At;
    AtIsPath(g, b, v);
    if At(g, b, v)[..g.levels - 1] <= Q {
      UnderBlock(g, b, v, Q);
    }
  }
}
