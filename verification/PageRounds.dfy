/** Positions on a walk, and the pure content of one round of the mapping and unmapping loops. */
module PageRounds {
  import opened Options
  import opened PageTree
  import opened PageRanges
  import opened PageSteps
  import opened PageOps
  import opened PageClean

  /** The walk of page v, below b, has got to depth d. */
  ghost predicate Spot(g: Geometry, s: State, b: Path, v: nat, d: nat) {
    |b| <= g.levels && OnWalk(g, s, b, At(g, b, v), d)
  }

  /** The table met at depth d, and the entry that is read there. */
  ghost function TableAt(g: Geometry, s: State, b: Path, v: nat, d: nat): nat {
    if |b| <= g.levels && d <= g.levels && At(g, b, v)[..d] in s.at then s.at[At(g, b, v)[..d]] else 0
  }

  ghost function EntryAt(g: Geometry, s: State, b: Path, v: nat, d: nat): Pte {
    if |b| <= g.levels && d < g.levels then Entry(s.mem, TableAt(g, s, b, v, d), At(g, b, v)[d]) else Absent
  }

  lemma WalkStart(g: Geometry, s: State, b: Path, v: nat)
    requires Good(g, s) && IsPath(b, |b|) && b in s.at
    ensures |b| < g.levels && Spot(g, s, b, v, |b|) && TableAt(g, s, b, v, |b|) == s.at[b]
  {
    AtIsPath(g, b, v);
    assert At(g, b, v)[..|b|] == b;
  }

  lemma SpotFacts(g: Geometry, s: State, b: Path, v: nat, d: nat)
    requires Spot(g, s, b, v, d)
    ensures |b| <= d < g.levels && At(g, b, v)[..d] in s.at && TableAt(g, s, b, v, d) == s.at[At(g, b, v)[..d]]
  {
  }

  /** What the code reads at a spot, and where it goes from there. */
  lemma WalkEntry(g: Geometry, s: State, b: Path, v: nat, d: nat)
    requires Good(g, s) && Spot(g, s, b, v, d)
    ensures d < g.levels && TableAt(g, s, b, v, d) < |s.mem| && |s.mem[TableAt(g, s, b, v, d)]| == ENTRIES
    ensures Index(g, v, d) < ENTRIES && s.mem[TableAt(g, s, b, v, d)][Index(g, v, d)] == EntryAt(g, s, b, v, d)
    ensures PageOk(g, d, EntryAt(g, s, b, v, d))
    ensures EntryAt(g, s, b, v, d).Next? ==>
              d + 1 < g.levels && Spot(g, s, b, v, d + 1)
              && TableAt(g, s, b, v, d + 1) == EntryAt(g, s, b, v, d).frame
  {
    var P := At(g, b, v);
    IndexAt(g, b, v, d);
    assert P[..d + 1] == P[..d] + [P[d]];
    hide At;
    assert LeadsDown(s.mem, s.at, P[..d], P[d]);
    assert |P[..d]| == d;
  }

  /** The translation of v, read off where its walk ends. */
  lemma WalkEnd(g: Geometry, s: State, b: Path, v: nat, d: nat)
    requires Good(g, s) && Spot(g, s, b, v, d) && !EntryAt(g, s, b, v, d).Next?
    ensures EntryAt(g, s, b, v, d).Absent? ==> Look(s, At(g, b, v)) == None
    ensures EntryAt(g, s, b, v, d).Page? ==>
              Look(s, At(g, b, v)) ==
              Some(Mapping(EntryAt(g, s, b, v, d).pfn + v % Pow(g.levels - 1 - d), EntryAt(g, s, b, v, d).flags))
  {
    OffsetValue(g, b, v, d);
    hide At;
    LeafLookup(g, s.mem, s.at, At(g, b, v), d);
  }

  /** The bits of an address below a level are the value of the remaining indices. */
  lemma OffsetValue(g: Geometry, b: Path, v: nat, d: nat)
    requires |b| <= d < g.levels
    ensures Value(At(g, b, v)[d + 1..]) == v % Pow(g.levels - 1 - d)
  {
    var j, h := g.levels - 1 - d, g.levels - |b|;
    PathTail(v, h, j);
    assert At(g, b, v)[d + 1..] == PathOf(v, h)[h - j..];
    PathOfMod(v, j);
    hide PathOf;
    ValueOfPath(v % Pow(j), j);
  }

  lemma {:induction false} PathTail(v: nat, h: nat, j: nat)
    requires j <= h
    ensures PathOf(v, h)[h - j..] == PathOf(v, j)
  {
    if j > 0 {
      PathTail(v / ENTRIES, h - 1, j - 1);
      assert PathOf(v, h)[h - j..] == PathOf(v / ENTRIES, h - 1)[h - j..] + [v % ENTRIES];
    }
  }

  lemma {:induction false} PathOfMod(v: nat, j: nat)
    ensures v % Pow(j) < Pow(j) && PathOf(v % Pow(j), j) == PathOf(v, j)
  {
    if j > 0 {
      PathOfMod(v / ENTRIES, j - 1);
      ModSplit(v, Pow(j - 1));
    }
  }

  lemma ModSplit(v: nat, m: nat)
    requires m > 0
    ensures v % (ENTRIES * m) / ENTRIES == v / ENTRIES % m
    ensures v % (ENTRIES * m) % ENTRIES == v % ENTRIES
  {
    var q, r := v / ENTRIES / m, v / ENTRIES % m;
    DivDiv(v, m);
    assert v / ENTRIES == m * q + r;
    assert v == ENTRIES * (m * q + r) + v % ENTRIES;
    assert ENTRIES * (m * q) == (ENTRIES * m) * q;
    assert v % (ENTRIES * m) == v - (ENTRIES * m) * (v / (ENTRIES * m));
    assert v % (ENTRIES * m) == ENTRIES * r + v % ENTRIES;
  }

  // ---- Splitting a 2 MiB entry ----

  /**
   * The 2 MiB page of v has become a table of 4 KiB pages; everything else is as before. The new pages keep the
   * frame number only as far as a 32-bit address mask lets it through.
   */
  ghost predicate SplitDone(g: Geometry, s0: State, s1: State, b: Path, v: nat)
    requires HasBig(g, b)
  {
    var P, d := At(g, b, v), g.levels - 2;
    var e := BigSlot(g, s0, P);
    && e.Page? && Step(g, s0, s1, b, P) && NoNewBig(g, s0, s1)
    && s1.at.Keys == s0.at.Keys + {P[..d + 1]} && Shrunk(s1, s0)
    && SameOutside(g, s0.mem, s1.mem, s0.at[[]], P[..d + 1])
    && forall Q | IsPath(Q, g.levels) && P[..d + 1] <= Q ::
         Look(s1, Q) == Some(Mapping(e.pfn % BELOW_4G + Q[d + 1], e.flags))
  }

  lemma UnderBigPage(g: Geometry, s: State, P: Path)
    requires Good(g, s) && g.levels >= 2 && IsPath(P, g.levels) && BigSlot(g, s, P).Page?
    ensures forall Q | IsPath(Q, g.levels) && P[..g.levels - 1] <= Q ::
              Look(s, Q) == Some(Mapping(BigSlot(g, s, P).pfn + Q[g.levels - 1], BigSlot(g, s, P).flags))
  {
    var d := g.levels - 2;
    forall Q | IsPath(Q, g.levels) && P[..d + 1] <= Q
      ensures Look(s, Q) == Some(Mapping(BigSlot(g, s, P).pfn + Q[d + 1], BigSlot(g, s, P).flags))
    {
      assert Q[..d] == Q[..d + 1][..d] == P[..d] && Q[d] == Q[..d + 1][d] == P[d];
      BigLookup(g, s, Q);
    }
  }

  /** Splitting preserves every translation of the tree if and only if the 2 MiB page lies below 4 GiB. */
  lemma SplitPreserves(g: Geometry, s0: State, s1: State, b: Path, v: nat)
    requires HasBig(g, b) && IsPath(b, |b|) && SplitDone(g, s0, s1, b, v)
    ensures SameLookups(g, s0.mem, s1.mem, s0.at[[]]) <==> BigSlot(g, s0, At(g, b, v)).pfn < BELOW_4G
  {
    hide At;
    hide Good;
    hide Framed;
    hide KeptBeside;
    hide Lookup;
    hide BigSlot;
    AtIsPath(g, b, v);
    var P, d := At(g, b, v), g.levels - 2;
    var e := BigSlot(g, s0, P);
    UnderBigPage(g, s0, P);
    assert P[..d + 1] <= P && Look(s0, P) == Some(Mapping(e.pfn + P[d + 1], e.flags));
    assert Look(s1, P) == Some(Mapping(e.pfn % BELOW_4G + P[d + 1], e.flags));
  }

  /** Replacing the 2 MiB page by a blank table: what the split does before it fills the table. */
  lemma SplitHang(g: Geometry, s: State, b: Path, v: nat, f: nat)
    requires HasBig(g, b) && Good(g, s) && Spot(g, s, b, v, g.levels - 2) && f < |s.mem| && f !in s.used
    requires EntryAt(g, s, b, v, g.levels - 2).Page?
    ensures var P, d := At(g, b, v), g.levels - 2;
            && P[d] < |s.mem[s.at[P[..d]]]|
            && var s1 := Hung(s, P, d, f);
               Step(g, s, s1, b, P) && NoNewBig(g, s, s1) && SameOutside(g, s.mem, s1.mem, s.at[[]], P[..d + 1])
  {
    var P, d := At(g, b, v), g.levels - 2;
    var s', s1 := Written(s, P, d, Absent), Hung(s, P, d, f);
    WriteEntry(g, s, b, P, d, Absent);
    WrittenBig(g, s, s', P, d, Absent);
    HangTable(g, s', b, P, d, f);
    PutTwice(s.mem, s.at[P[..d]], P[d], Absent, Next(f));
    assert Hung(s', P, d, f) == s1;
    StepChain(g, s, s', s1, b, P);
    SameTrans(g, s.mem, s'.mem, s1.mem, s.at[[]], P[..d + 1]);
  }

  lemma SameTrans(g: Geometry, m0: seq<Table>, m1: seq<Table>, m2: seq<Table>, root: nat, q: Path)
    requires SameOutside(g, m0, m1, root, q) && SameLookups(g, m1, m2, root)
    ensures SameOutside(g, m0, m2, root, q)
  {
  }

  lemma TouchesBelow(g: Geometry, q: Path, v: nat, n: nat, r: Path)
    requires |r| <= |q| <= g.levels
    ensures Touches(g, q, v, n, r) ==> r <= q
  {
    if Touches(g, q, v, n, r) {
      var k: nat :| v <= k < v + n && r <= At(g, q, k);
      assert r == At(g, q, k)[..|r|] == q[..|r|];
    }
  }

  lemma WithinBelow(g: Geometry, q: Path, v: nat, n: nat, Q: Path)
    requires |q| <= g.levels
    ensures Within(g, q, v, n, Q) ==> q <= Q
  {
  }

  /** Work confined to the leaf table of P's block is a step along the walk of P. */
  lemma LeafTableStep(g: Geometry, s0: State, s1: State, b: Path, P: Path)
    requires g.levels >= 2 && IsPath(P, g.levels) && b <= P && |b| + 2 <= g.levels && b in s0.at && s1.at == s0.at
    requires RangeStep(g, s0, s1, P[..g.levels - 1], 0, ENTRIES)
    ensures Step(g, s0, s1, b, P)
  {
    var q := P[..g.levels - 1];
    hide Good;
    hide Framed;
    forall p: Path, i: nat | |p| + 1 < g.levels && !(p + [i] <= P) ensures SlotKept(s0, s1, p, i) {
      TouchesBelow(g, q, 0, ENTRIES, p + [i]);
      hide Touches;
      assert p + [i] <= q ==> p + [i] <= P;
    }
  }

  lemma LeafTableBig(g: Geometry, s0: State, s1: State, P: Path)
    requires g.levels >= 2 && IsPath(P, g.levels) && P[..g.levels - 1] in s1.at
    requires RangeStep(g, s0, s1, P[..g.levels - 1], 0, ENTRIES)
    ensures NoNewBig(g, s0, s1)
  {
    hide Framed;
    hide Kept;
    hide Shape;
    var q := P[..g.levels - 1];
    forall Q | IsPath(Q, g.levels) && BigSlot(g, s1, Q).Page? ensures BigSlot(g, s1, Q) == BigSlot(g, s0, Q) {
      BigLookup(g, s1, Q);
      InsideLeaf(g, q, Q);
    }
  }

  lemma InsideLeaf(g: Geometry, q: Path, Q: Path)
    requires |q| + 1 == g.levels == |Q|
    ensures Inside(g, q, 0, ENTRIES, Q) ==> Q[..g.levels - 1] == q
  {
    if Inside(g, q, 0, ENTRIES, Q) {
      var w: nat :| 0 <= BlockStart(w) && BlockStart(w) + ENTRIES <= 0 + ENTRIES
                    && Q[..g.levels - 1] == At(g, q, w)[..g.levels - 1];
    }
  }

  lemma LeafPath(g: Geometry, q: Path, Q: Path)
    requires IsPath(Q, g.levels) && |q| + 1 == g.levels && q <= Q
    ensures At(g, q, Q[|q|]) == Q
  {
    assert PathOf(Q[|q|], 1) == PathOf(Q[|q|] / ENTRIES, 0) + [Q[|q|]];
    assert Q == q + [Q[|q|]];
  }

  /** Filling a leaf table: what the pages below it and the others translate to. */
  lemma LeafTableFilled(g: Geometry, s0: State, s1: State, q: Path, pfn: nat, flags: nat)
    requires |q| + 1 == g.levels && [] in s0.at && [] in s1.at && flags % 2 == 1
    requires Created(g, s0, s1, q, 0, ENTRIES, pfn, flags)
    ensures forall Q | IsPath(Q, g.levels) && q <= Q :: Look(s1, Q) == Some(Mapping(pfn + Q[|q|], flags))
    ensures forall Q | IsPath(Q, g.levels) && !(q <= Q) :: Look(s1, Q) == Look(s0, Q)
  {
    forall Q | IsPath(Q, g.levels) && q <= Q ensures Look(s1, Q) == Some(Mapping(pfn + Q[|q|], flags)) {
      LeafPath(g, q, Q);
    }
    forall Q | IsPath(Q, g.levels) && !(q <= Q) ensures Look(s1, Q) == Look(s0, Q) {
      WithinBelow(g, q, 0, ENTRIES, Q);
    }
  }

  /** Replacing the page by a blank table and filling the table is the split. */
  lemma SplitFill(g: Geometry, s: State, s': State, s1: State, b: Path, v: nat, pfn: nat, flags: nat)
    requires HasBig(g, b) && IsPath(b, |b|)
    requires var P, d := At(g, b, v), g.levels - 2;
             && Step(g, s, s', b, P) && NoNewBig(g, s, s') && SameOutside(g, s.mem, s'.mem, s.at[[]], P[..d + 1])
             && s'.at.Keys == s.at.Keys + {P[..d + 1]} && Shrunk(s', s)
             && BigSlot(g, s, P) == Page(pfn, flags) && flags % 2 == 1
             && RangeStep(g, s', s1, P[..d + 1], 0, ENTRIES) && s1.at == s'.at
             && Created(g, s', s1, P[..d + 1], 0, ENTRIES, pfn % BELOW_4G, flags)
    ensures SplitDone(g, s, s1, b, v)
  {
    hide KeptBeside;
    hide Good;
    hide Framed;
    hide Created;
    hide Kept;
    hide At;
    hide Lookup;
    var P, d := At(g, b, v), g.levels - 2;
    AtIsPath(g, b, v);
    LeafTableStep(g, s', s1, b, P);
    LeafTableBig(g, s', s1, P);
    LeafTableFilled(g, s', s1, P[..d + 1], pfn % BELOW_4G, flags);
    StepChain(g, s, s', s1, b, P);
  }

  // ---- One round of the unmapping loop ----

  ghost predicate ChainAt(g: Geometry, s: State, b: Path, v: nat, pts: seq<nat>, i: nat)
    requires |b| <= g.levels
  {
    var P := At(g, b, v);
    i < |pts| && |b| + i <= |P| ==> P[..|b| + i] in s.at && pts[i] == s.at[P[..|b| + i]]
  }

  /** The tables met on the way down to depth d. */
  ghost predicate Chain(g: Geometry, s: State, b: Path, v: nat, d: nat, pts: seq<nat>) {
    |b| <= g.levels && |pts| == d - |b| + 1
    && forall i: nat {:trigger ChainAt(g, s, b, v, pts, i)} :: ChainAt(g, s, b, v, pts, i)
  }

  /** The way down has ended at depth d, possibly after a split, without any change of translation. */
  ghost predicate Descended(g: Geometry, s0: State, s1: State, b: Path, v: nat, n: nat, d: nat)
    requires |b| < g.levels
  {
    && Calm(g, s0, s1, b, At(g, b, v)) && Spot(g, s1, b, v, d) && !EntryAt(g, s1, b, v, d).Next?
    && (HasBig(g, b) && d == g.levels - 2 <==> StepsBlock(g, s0, b, v, n))
    && (forall q | q in s1.at && q !in s0.at :: |q| == g.levels - 1)
  }

  /** Everything under the entry at depth d is unmapped, and tables that this emptied are gone. */
  ghost predicate Cleared(g: Geometry, s0: State, s1: State, b: Path, P: Path, d: nat)
    requires d < g.levels == |P|
  {
    && Step(g, s0, s1, b, P) && NoNewBig(g, s0, s1) && SameOutside(g, s0.mem, s1.mem, s0.at[[]], P[..d + 1])
    && (forall Q | IsPath(Q, g.levels) && P[..d + 1] <= Q :: Look(s1, Q) == None)
    && Shrunk(s0, s1)
  }

  /** Every page under an entry that is not present is unmapped. */
  lemma UnderAbsent(g: Geometry, s: State, P: Path, d: nat)
    requires Good(g, s) && IsPath(P, g.levels) && d < g.levels && P[..d] in s.at
    requires Entry(s.mem, s.at[P[..d]], P[d]) == Absent
    ensures forall Q | IsPath(Q, g.levels) && P[..d + 1] <= Q :: Look(s, Q) == None
  {
    forall Q | IsPath(Q, g.levels) && P[..d + 1] <= Q ensures Look(s, Q) == None {
      assert Q[..d] == Q[..d + 1][..d] == P[..d] && Q[d] == Q[..d + 1][d] == P[d];
      LeafLookup(g, s.mem, s.at, Q, d);
    }
  }

  /** If the walk stops above the last level without a 2 MiB entry in sight, it stops at a hole. */
  lemma StopsAtHole(g: Geometry, s: State, b: Path, v: nat, d: nat)
    requires Good(g, s) && Spot(g, s, b, v, d) && !EntryAt(g, s, b, v, d).Next?
    requires d + 1 < g.levels && !(HasBig(g, b) && d == g.levels - 2)
    ensures EntryAt(g, s, b, v, d).Absent?
  {
    WalkEntry(g, s, b, v, d);
  }

  lemma HoleLooks(g: Geometry, s: State, b: Path, v: nat, d: nat)
    requires Good(g, s) && Spot(g, s, b, v, d) && !EntryAt(g, s, b, v, d).Next?
    requires d + 1 < g.levels && !(HasBig(g, b) && d == g.levels - 2)
    ensures forall Q | IsPath(Q, g.levels) && At(g, b, v)[..d + 1] <= Q :: Look(s, Q) == None
  {
    hide At;
    hide Shape;
    StopsAtHole(g, s, b, v, d);
    UnderAbsent(g, s, At(g, b, v), d);
  }

  lemma RoundDone(g: Geometry, s0: State, s: State, s1: State, b: Path, v: nat, n: nat, d: nat)
    requires |b| < g.levels && Descended(g, s0, s, b, v, n, d) && Cleared(g, s, s1, b, At(g, b, v), d)
    ensures Round(g, s0, s1, b, v, n, if HasBig(g, b) && d == g.levels - 2 then ENTRIES else 1)
  {
    hide At;
    hide Good;
    hide Framed;
    hide KeptBeside;
    hide EntryAt;
    hide StepsBlock;
    hide Lookup;
    var P, k := At(g, b, v), if HasBig(g, b) && d == g.levels - 2 then ENTRIES else 1;
    StepChain(g, s0, s, s1, b, P);
    if k == 1 && d + 1 < g.levels {
      HoleLooks(g, s, b, v, d);
    }
    var q := P[..if k == 1 then g.levels else g.levels - 1];
    forall Q | IsPath(Q, g.levels) && !(q <= Q) ensures Look(s1, Q) == Look(s0, Q) {
      if P[..d + 1] <= Q {
        assert Look(s, Q) == None;
      }
    }
  }

  // ---- Walking up again ----

  /** The tables on the walk of P below b all hold something. */
  ghost predicate Tight(g: Geometry, s: State, b: Path, P: Path)
    requires |P| == g.levels
  {
    forall k: nat {:trigger P[..k]} | |b| < k < g.levels && P[..k] in s.at && s.at[P[..k]] < |s.mem| ::
      !Blank(s.mem[s.at[P[..k]]])
  }

  /** On the way up at depth k: clearing the entry there completes what was to be cleared. */
  ghost predicate Pending(g: Geometry, s0: State, s: State, b: Path, P: Path, d: nat, k: nat)
    requires d < g.levels == |P|
  {
    && OnWalk(g, s, b, P, k) && k <= d
    && s.at[P[..k]] < |s.mem| && |s.mem[s.at[P[..k]]]| == ENTRIES
    && Cleared(g, s0, Written(s, P, k, Absent), b, P, d)
    && (forall j: nat {:trigger P[..j]} | k < j < g.levels :: P[..j] !in s.at)
  }

  lemma {:induction false} NothingBelow(g: Geometry, s: State, P: Path, d: nat, j: nat)
    requires Good(g, s) && IsPath(P, g.levels) && d < j < g.levels && P[..d] in s.at
    requires !Entry(s.mem, s.at[P[..d]], P[d]).Next?
    ensures P[..j] !in s.at
  {
    var q := P[..j];
    assert q[..j - 1] == P[..j - 1] && q[j - 1] == P[j - 1] && HangsUp(s.mem, s.at, q);
    if d + 1 < j {
      NothingBelow(g, s, P, d, j - 1);
    }
  }

  lemma PendingStart(g: Geometry, s: State, b: Path, P: Path, d: nat)
    requires Good(g, s) && OnWalk(g, s, b, P, d) && !Entry(s.mem, s.at[P[..d]], P[d]).Next?
    ensures Pending(g, s, s, b, P, d, d)
  {
    WriteEntry(g, s, b, P, d, Absent);
    UnderAbsent(g, Written(s, P, d, Absent), P, d);
    forall j: nat | d < j < g.levels ensures P[..j] !in s.at {
      NothingBelow(g, s, P, d, j);
    }
  }

  lemma ClearedCalm(g: Geometry, s0: State, s1: State, s2: State, b: Path, P: Path, d: nat)
    requires d < g.levels == |P|
    requires Cleared(g, s0, s1, b, P, d) && Calm(g, s1, s2, b, P) && Shrunk(s1, s2)
    ensures Cleared(g, s0, s2, b, P, d)
  {
    StepChain(g, s0, s1, s2, b, P);
  }

  lemma PendingParent(g: Geometry, s0: State, s: State, s1: State, b: Path, P: Path, d: nat, k: nat)
    requires d < g.levels == |P| && Pending(g, s0, s, b, P, d, k) && k > |b| && s1 == Written(s, P, k, Absent)
    ensures Good(g, s1) && OnWalk(g, s1, b, P, k - 1) && P[..k - 1] != P[..k] && P[..k - 1] in s1.at - {P[..k]}
    ensures s1.at[P[..k - 1]] < |s1.mem| && |s1.mem[s1.at[P[..k - 1]]]| == ENTRIES && P[k - 1] < ENTRIES
  {
    hide Framed;
    hide KeptBeside;
    hide SameOutside;
    var q := P[..k];
    assert HangsUp(s1.mem, s1.at, q) && q[..k - 1] == P[..k - 1];
  }

  /** The cleared entry was the last of its table: free the table and go on with the entry that holds it. */
  lemma PendingDrop(g: Geometry, s0: State, s: State, s1: State, s2: State, b: Path, P: Path, d: nat, k: nat)
    requires d < g.levels == |P| && Pending(g, s0, s, b, P, d, k) && k > |b| && s1 == Written(s, P, k, Absent)
    requires var f := s.at[P[..k]];
             Blank(s1.mem[f]) && s2 == State(s1.mem, s1.used - {f}, s1.at - {P[..k]})
    ensures Pending(g, s0, s2, b, P, d, k - 1)
  {
    hide Good;
    hide Blank;
    hide Cleared;
    hide Calm;
    hide Put;
    PendingParent(g, s0, s, s1, b, P, d, k);
    DropTable(g, s1, b, P, k - 1);
    var s3 := Dropped(s1, P, k - 1);
    assert Written(s2, P, k - 1, Absent) == s3;
    ClearedCalm(g, s0, s1, s3, b, P, d);
  }

  lemma PendingEnd(g: Geometry, s0: State, s: State, s1: State, b: Path, P: Path, d: nat, k: nat)
    requires d < g.levels == |P| && Pending(g, s0, s, b, P, d, k) && s1 == Written(s, P, k, Absent)
    requires k == |b| || !Blank(s1.mem[s.at[P[..k]]])
    ensures Tight(g, s1, b, P)
  {
    hide Framed;
    hide KeptBeside;
    hide SameOutside;
    forall j: nat | |b| < j < g.levels && P[..j] in s1.at ensures !Blank(s1.mem[s1.at[P[..j]]]) {
      if j < k {
        WalkInside(g, s1.mem, s1.at, P, k, j + 1);
        var q := P[..j + 1];
        assert q[..j] == P[..j] && HangsUp(s1.mem, s1.at, q);
      }
    }
  }

  /** The saved table of depth k is the one the tree still has there. */
  lemma ChainTable(g: Geometry, s0: State, s: State, b: Path, v: nat, d: nat, k: nat, pts: seq<nat>)
    requires Spot(g, s0, b, v, d) && Chain(g, s0, b, v, d, pts) && |b| <= k <= d
    requires OnWalk(g, s, b, At(g, b, v), k) && Shrunk(s0, s)
    ensures k - |b| < |pts| && pts[k - |b|] == s.at[At(g, b, v)[..k]]
  {
    hide At;
    assert ChainAt(g, s0, b, v, pts, k - |b|);
  }

  lemma PendingUsed(g: Geometry, s0: State, s: State, s1: State, b: Path, P: Path, d: nat, k: nat)
    requires d < g.levels == |P| && Pending(g, s0, s, b, P, d, k) && s1 == Written(s, P, k, Absent)
    ensures s.at[P[..k]] in s1.used
  {
    assert s1.at[P[..k]] in s1.at.Values;
  }

  /** Preparing a split: the page is a 2 MiB page, its masked frame, and the state with a blank table in its place. */
  lemma SplitBegin(g: Geometry, s: State, s': State, b: Path, v: nat, d: nat, f: nat)
    requires Good(g, s) && IsPath(b, |b|) && Spot(g, s, b, v, d) && d + 1 < g.levels && f < |s.mem| && f !in s.used
    requires EntryAt(g, s, b, v, d).Page?
    requires TableAt(g, s, b, v, d) < |s.mem| && At(g, b, v)[d] < |s.mem[TableAt(g, s, b, v, d)]|
    requires s' == Hung(s, At(g, b, v), d, f)
    ensures HasBig(g, b) && d == g.levels - 2
    ensures var P := At(g, b, v);
            && IsPath(P, g.levels) && Step(g, s, s', b, P) && NoNewBig(g, s, s')
            && SameOutside(g, s.mem, s'.mem, s.at[[]], P[..d + 1])
            && s'.at.Keys == s.at.Keys + {P[..d + 1]} && Shrunk(s', s) && BigSlot(g, s, P) == EntryAt(g, s, b, v, d)
            && EntryAt(g, s, b, v, d).pfn % ENTRIES == 0 && EntryAt(g, s, b, v, d).flags % 2 == 1
            && IsPath(P[..d + 1], d + 1)
  {
    hide At;
    hide Shape;
    hide Framed;
    hide KeptBeside;
    AtIsPath(g, b, v);
    WalkEntry(g, s, b, v, d);
    SplitHang(g, s, b, v, f);
    BigLookup(g, s, At(g, b, v));
  }

  /** The 32-bit mask of the split: the base of the page, reduced below 4 GiB. */
  lemma SplitMask(pfn: nat, offset: nat)
    requires pfn % ENTRIES == 0 && offset < ENTRIES
    ensures (pfn + offset) % BELOW_4G - (pfn + offset) % BELOW_4G % ENTRIES == pfn % BELOW_4G
  {
    var q, m := pfn / BELOW_4G, pfn % BELOW_4G;
    assert m % ENTRIES == 0;
    assert pfn + offset == BELOW_4G * q + (m + offset) && m + offset < BELOW_4G;
    assert (pfn + offset) % BELOW_4G == m + offset;
  }

  // ---- Going down ----

  lemma ChainStart(g: Geometry, s: State, b: Path, v: nat, pts: seq<nat>)
    requires Spot(g, s, b, v, |b|) && pts == [TableAt(g, s, b, v, |b|)]
    ensures Chain(g, s, b, v, |b|, pts)
  {
  }

  lemma ChainLast(g: Geometry, s: State, b: Path, v: nat, d: nat, pts: seq<nat>)
    requires Spot(g, s, b, v, d) && Chain(g, s, b, v, d, pts)
    ensures |pts| == d - |b| + 1 && pts[|pts| - 1] == TableAt(g, s, b, v, d)
  {
    hide At;
    assert ChainAt(g, s, b, v, pts, d - |b|);
  }

  lemma ChainMore(g: Geometry, s: State, b: Path, v: nat, d: nat, pts: seq<nat>)
    requires Spot(g, s, b, v, d) && Spot(g, s, b, v, d + 1) && Chain(g, s, b, v, d, pts)
    ensures Chain(g, s, b, v, d + 1, pts + [TableAt(g, s, b, v, d + 1)])
  {
    hide At;
    var more := pts + [TableAt(g, s, b, v, d + 1)];
    forall i: nat ensures ChainAt(g, s, b, v, more, i) {
      assert ChainAt(g, s, b, v, pts, i);
    }
  }

  lemma BigHere(g: Geometry, s: State, b: Path, v: nat, d: nat)
    requires Good(g, s) && Spot(g, s, b, v, d) && EntryAt(g, s, b, v, d).Page? && d + 1 < g.levels
    ensures HasBig(g, b) && d == g.levels - 2 && |At(g, b, v)| == g.levels
    ensures BigSlot(g, s, At(g, b, v)) == EntryAt(g, s, b, v, d)
  {
    hide At;
    hide Shape;
    WalkEntry(g, s, b, v, d);
  }

  /** Where the walk stands after a split: the entry it has read is now a table entry. */
  lemma SplitSpot(g: Geometry, s0: State, s1: State, b: Path, v: nat)
    requires HasBig(g, b) && Spot(g, s0, b, v, g.levels - 2) && SplitDone(g, s0, s1, b, v)
    ensures Good(g, s1) && Spot(g, s1, b, v, g.levels - 2) && EntryAt(g, s1, b, v, g.levels - 2).Next?
    ensures TableAt(g, s1, b, v, g.levels - 2) == TableAt(g, s0, b, v, g.levels - 2) && Shrunk(s1, s0)
  {
    hide At;
    hide Shape;
    hide Framed;
    hide KeptBeside;
    hide SameOutside;
    BigLookup(g, s1, At(g, b, v));
  }

  lemma AfterSplit(g: Geometry, s0: State, s1: State, b: Path, v: nat, pts: seq<nat>)
    requires HasBig(g, b) && Spot(g, s0, b, v, g.levels - 2) && Chain(g, s0, b, v, g.levels - 2, pts)
    requires SplitDone(g, s0, s1, b, v)
    ensures Good(g, s1) && Spot(g, s1, b, v, g.levels - 2) && Chain(g, s1, b, v, g.levels - 2, pts)
    ensures EntryAt(g, s1, b, v, g.levels - 2).Next?
    ensures TableAt(g, s1, b, v, g.levels - 2) == TableAt(g, s0, b, v, g.levels - 2)
  {
    hide At;
    hide Good;
    hide SplitDone;
    hide EntryAt;
    hide TableAt;
    SplitSpot(g, s0, s1, b, v);
    forall i: nat ensures ChainAt(g, s1, b, v, pts, i) {
      assert ChainAt(g, s0, b, v, pts, i);
    }
  }

  lemma DownStep(g: Geometry, s: State, b: Path, v: nat, n: nat, d: nat)
    requires |b| < g.levels && Good(g, s) && Spot(g, s, b, v, d) && !EntryAt(g, s, b, v, d).Next?
    requires EntryAt(g, s, b, v, d).Page? ==> g.PageSize(d) <= n
    ensures HasBig(g, b) && d == g.levels - 2 <==> StepsBlock(g, s, b, v, n)
  {
    hide At;
    hide Shape;
    var P := At(g, b, v);
    if HasBig(g, b) {
      BigLookup(g, s, P);
      if d < g.levels - 2 {
        NothingBelow(g, s, P, d, g.levels - 2);
      }
    }
  }

  lemma DownDone(g: Geometry, s: State, b: Path, v: nat, n: nat, d: nat)
    requires |b| < g.levels && IsPath(b, |b|)
    requires Good(g, s) && Spot(g, s, b, v, d) && !EntryAt(g, s, b, v, d).Next? && b in s.at
    requires EntryAt(g, s, b, v, d).Page? ==> g.PageSize(d) <= n
    ensures Descended(g, s, s, b, v, n, d)
  {
    hide At;
    hide Good;
    StepSelf(g, s, b, At(g, b, v));
    DownStep(g, s, b, v, n, d);
  }

  // ---- Rounds after a split ----

  /** Before its round, the 2 MiB page of v may have been split; nothing else has changed. */
  ghost predicate Presplit(g: Geometry, s0: State, mid: State, b: Path, v: nat) {
    mid == s0 || (HasBig(g, b) && SplitDone(g, s0, mid, b, v))
  }

  /** The 2 MiB page of v is larger than the n pages to be unmapped. */
  ghost predicate NeedsSplit(g: Geometry, s: State, b: Path, v: nat, n: nat)
    requires |b| < g.levels
  {
    n < ENTRIES && HasBig(g, b) && BigSlot(g, s, At(g, b, v)).Page?
  }

  /** One round of the unmapping loop, with the split that it may need. */
  ghost predicate SplitRound(g: Geometry, s0: State, s1: State, b: Path, v: nat, n: nat, k: nat)
    requires |b| < g.levels
  {
    exists mid ::
      Presplit(g, s0, mid, b, v) && (mid != s0 <==> NeedsSplit(g, s0, b, v, n)) && Round(g, mid, s1, b, v, n, k)
  }

  /** A way down that ended without a split needed none. */
  lemma NoneNeeded(g: Geometry, s: State, b: Path, v: nat, n: nat, d: nat)
    requires |b| < g.levels && Descended(g, s, s, b, v, n, d)
    ensures !NeedsSplit(g, s, b, v, n)
  {
    hide At;
    hide Shape;
    var P := At(g, b, v);
    if HasBig(g, b) {
      BigLookup(g, s, P);
      if d < g.levels - 2 {
        NothingBelow(g, s, P, d, g.levels - 2);
      }
    }
  }

  /** If the page lies below 4 GiB, split and round together are a round. */
  lemma RoundThroughSplit(g: Geometry, s0: State, mid: State, s1: State, b: Path, v: nat, n: nat, k: nat)
    requires HasBig(g, b) && IsPath(b, |b|) && SplitDone(g, s0, mid, b, v) && n < ENTRIES
    requires BigSlot(g, s0, At(g, b, v)).pfn < BELOW_4G && Round(g, mid, s1, b, v, n, k)
    ensures Round(g, s0, s1, b, v, n, k)
  {
    hide At;
    hide Good;
    hide Framed;
    hide KeptBeside;
    hide SameOutside;
    hide Lookup;
    AtIsPath(g, b, v);
    var P := At(g, b, v);
    SplitPreserves(g, s0, mid, b, v);
    StepChain(g, s0, mid, s1, b, P);
    BigLookup(g, mid, P);
    forall Q | IsPath(Q, g.levels) ensures Look(mid, Q) == Look(s0, Q) {
    }
  }

  /**
   * What the unmapping loop does on any range: rounds at positions vs, from the first page of the range, through the
   * states ss.
   */
  ghost predicate Rounds(g: Geometry, ss: seq<State>, vs: seq<nat>, b: Path, v: nat, n: nat)
    requires |b| < g.levels
  {
    && |ss| == |vs| > 0 && vs[0] == v
    && forall i | 0 <= i < |vs| - 1 ::
         && vs[i] < vs[i + 1] && vs[i] < v + n
         && SplitRound(g, ss[i], ss[i + 1], b, vs[i], v + n - vs[i], vs[i + 1] - vs[i])
  }

  lemma RoundsStart(g: Geometry, s: State, b: Path, v: nat, n: nat)
    requires |b| < g.levels
    ensures Rounds(g, [s], [v], b, v, n)
  {
  }

  lemma RoundsMore(g: Geometry, ss: seq<State>, vs: seq<nat>, b: Path, v: nat, n: nat, s: State, k: nat)
    requires |b| < g.levels && |ss| == |vs| > 0 && Rounds(g, ss, vs, b, v, n) && k > 0
    requires vs[|vs| - 1] < v + n && SplitRound(g, ss[|ss| - 1], s, b, vs[|vs| - 1], v + n - vs[|vs| - 1], k)
    ensures Rounds(g, ss + [s], vs + [vs[|vs| - 1] + k], b, v, n)
  {
    hide SplitRound;
  }
}
