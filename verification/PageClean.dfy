/** The unmapping loop on ranges that do not derail it: each round is exact and leaves such a range behind. */
module PageClean {
  import opened Options
  import opened PageTree
  import opened PageRanges
  import opened PageSteps
  import opened PageOps

  lemma {:induction false} WalkReaches(g: Geometry, s: State, P: Path, k: nat)
    requires Shape(g, s.mem, s.at) && g.levels >= 2 && IsPath(P, g.levels) && k <= g.levels - 2 && P[..k] in s.at
    requires Walk(s.mem, s.at[P[..k]], P, k).Some?
    ensures ReachesBig(g, s, P)
    decreases g.levels - k
  {
    if k < g.levels - 2 {
      assert P[..k + 1] == P[..k] + [P[k]] && LeadsDown(s.mem, s.at, P[..k], P[k]);
      assert PageOk(g, |P[..k]|, Entry(s.mem, s.at[P[..k]], P[k]));
      WalkReaches(g, s, P, k + 1);
    }
  }

  /** How the entry of the 2 MiB block of a page decides the translation of the page. */
  lemma BigLookup(g: Geometry, s: State, P: Path)
    requires Good(g, s) && g.levels >= 2 && IsPath(P, g.levels)
    ensures ReachesBig(g, s, P) && BigSlot(g, s, P).Absent? ==> Look(s, P) == None
    ensures BigSlot(g, s, P).Page? ==>
              Look(s, P) == Some(Mapping(BigSlot(g, s, P).pfn + P[g.levels - 1], BigSlot(g, s, P).flags))
    ensures Look(s, P).Some? ==> ReachesBig(g, s, P) && !BigSlot(g, s, P).Absent?
    ensures BigSlot(g, s, P).Next? <==> P[..g.levels - 1] in s.at
  {
    var d := g.levels - 2;
    var q := P[..d + 1];
    assert q == P[..d] + [P[d]] && q[..|q| - 1] == P[..d] && q[|q| - 1] == P[d];
    assert HangsUp(s.mem, s.at, q) && LeadsDown(s.mem, s.at, P[..d], P[d]);
    if ReachesBig(g, s, P) {
      LookupAt(g, s.mem, s.at, P, d);
      assert P[d + 1..] == [P[d + 1]] && Value([]) == 0 && [P[d + 1]][..0] == [];
    }
    if Look(s, P).Some? {
      assert P[..0] == [];
      WalkReaches(g, s, P, 0);
    }
  }

  /** A round that steps within the range is aligned to what it steps over. */
  lemma RoundAligned(g: Geometry, s0: State, s1: State, b: Path, v: nat, n: nat, k: nat, split: bool)
    requires Fits(g, b, v, n) && n > 0 && Round(g, s0, s1, b, v, n, k) && Clean(g, s0, b, v, n, split)
    ensures [] in s1.at && (k == 1 || k == ENTRIES)
    ensures k == ENTRIES && k <= n ==> v % ENTRIES == 0
  {
    if k == ENTRIES {
      assert CleanAt(g, s0, b, v, n, split, v);
    }
  }

  lemma RoundUnmaps(g: Geometry, s0: State, s1: State, b: Path, v: nat, n: nat, k: nat)
    requires Fits(g, b, v, n) && Round(g, s0, s1, b, v, n, k) && k <= n
    requires k == ENTRIES ==> v % ENTRIES == 0
    ensures Unmapped(g, s0, s1, b, v, k)
  {
    hide Shape;
    hide Framed;
    hide KeptBeside;
    hide StepsBlock;
    var P := At(g, b, v);
    AtIsPath(g, b, v);
    forall w: nat | v <= w < v + k ensures Look(s1, At(g, b, w)) == None {
      AtIsPath(g, b, w);
      SameBlock(g, b, v, w);
      hide At;
    }
    forall Q | IsPath(Q, g.levels) && !Within(g, b, v, k, Q) ensures Look(s1, Q) == Look(s0, Q) {
      if k == ENTRIES && P[..g.levels - 1] <= Q {
        UnderBlock(g, b, v, Q);
      }
    }
  }

  /** The round that ends the loop because its step is larger than what is left. */
  lemma RoundLast(g: Geometry, s0: State, s1: State, b: Path, v: nat, n: nat, k: nat, split: bool)
    requires Fits(g, b, v, n) && n > 0 && Round(g, s0, s1, b, v, n, k) && Clean(g, s0, b, v, n, split) && k > n
    ensures Unmapped(g, s0, s1, b, v, n)
  {
    hide Shape;
    hide Framed;
    hide KeptBeside;
    var P := At(g, b, v);
    AtIsPath(g, b, v);
    assert CleanAt(g, s0, b, v, n, split, v);
    forall w: nat | v <= w < v + n ensures Look(s1, At(g, b, w)) == None {
      AtIsPath(g, b, w);
      SameBlock(g, b, v, w);
      hide At;
    }
    forall Q | IsPath(Q, g.levels) && !Within(g, b, v, n, Q) ensures Look(s1, Q) == Look(s0, Q) {
      if P[..g.levels - 1] <= Q {
        assert P[..g.levels - 2] == P[..g.levels - 1][..g.levels - 2] == Q[..g.levels - 2];
        assert P[g.levels - 2] == P[..g.levels - 1][g.levels - 2] == Q[g.levels - 2];
        BigLookup(g, s0, Q);
      }
    }
  }

  lemma NotOnWalk(P: Path, V: Path, d: nat)
    requires d < |P| == |V| && P[..d + 1] != V[..d + 1]
    ensures !(P[..d] + [P[d]] <= V)
  {
    assert P[..d + 1] == P[..d] + [P[d]];
  }

  /** Entries of other blocks are not on the walk of v. */
  lemma OtherBlock(g: Geometry, b: Path, v: nat, w: nat)
    requires HasBig(g, b) && IsPath(b, |b|) && v < Pow(g.levels - |b|) && w < Pow(g.levels - |b|)
    requires v / ENTRIES != w / ENTRIES
    ensures var P := At(g, b, w); |P| == g.levels && !(P[..g.levels - 2] + [P[g.levels - 2]] <= At(g, b, v))
  {
    hide At;
    hide Pow;
    AtIsPath(g, b, v);
    AtIsPath(g, b, w);
    SameBlock(g, b, v, w);
    NotOnWalk(At(g, b, w), At(g, b, v), g.levels - 2);
  }

  /** The rest of the range stays clean: pages of blocks that the round did not touch. */
  lemma CleanOther(g: Geometry, s0: State, s1: State, b: Path, v: nat, n: nat, k: nat, split: bool, w: nat)
    requires HasBig(g, b) && Fits(g, b, v, n) && Round(g, s0, s1, b, v, n, k) && Clean(g, s0, b, v, n, split)
    requires k < n && v + k <= w < v + n && w / ENTRIES != v / ENTRIES
    ensures CleanAt(g, s1, b, v + k, n - k, split, w)
  {
    hide Good;
    hide Framed;
    var P := At(g, b, w);
    AtIsPath(g, b, v);
    AtIsPath(g, b, w);
    RoundAligned(g, s0, s1, b, v, n, k, split);
    assert CleanAt(g, s0, b, v, n, split, w);
    OtherBlock(g, b, v, w);
    assert SlotKept(s0, s1, P[..g.levels - 2], P[g.levels - 2]);
    SameBlock(g, b, v, w);
    assert v + k <= BlockStart(w);
    assert !(At(g, b, v)[..g.levels - 1] <= P);
    assert Look(s1, P) == Look(s0, P);
  }

  /** The same for the rest of the block of v, which is then walked page by page. */
  lemma CleanSame(g: Geometry, s0: State, s1: State, b: Path, v: nat, n: nat, split: bool, w: nat)
    requires HasBig(g, b) && Fits(g, b, v, n) && Round(g, s0, s1, b, v, n, 1) && Clean(g, s0, b, v, n, split)
    requires 1 < n && v + 1 <= w < v + n && w / ENTRIES == v / ENTRIES
    ensures CleanAt(g, s1, b, v + 1, n - 1, split, w)
  {
    hide Good;
    hide Framed;
    hide KeptBeside;
    var P, V, start := At(g, b, w), At(g, b, v), BlockStart(w);
    var d := g.levels - 2;
    AtIsPath(g, b, v);
    AtIsPath(g, b, w);
    SameBlock(g, b, v, w);
    assert P[..d] == P[..d + 1][..d] == V[..d + 1][..d] == V[..d];
    assert P[d] == P[..d + 1][d] == V[..d + 1][d] == V[d];
    BigLookup(g, s1, V);
    assert CleanAt(g, s0, b, v, n, split, w);
    OthersSame(g, s0, s1, b, v, n, w);
    BigLookup(g, s1, P);
    BigLookup(g, s0, P);
    if BigSlot(g, s1, P).Absent? && ReachesBig(g, s1, P) && v + n > start + ENTRIES {
      var u := start + ENTRIES - 1;
      var U := At(g, b, u);
      AtIsPath(g, b, u);
      assert CleanAt(g, s0, b, v, n, split, u);
      SameBlock(g, b, u, w);
      assert U[..d] == U[..d + 1][..d] == P[..d] && U[d] == U[..d + 1][d] == P[d];
      OthersSame(g, s0, s1, b, v, n, u);
      BigLookup(g, s1, U);
      BigLookup(g, s0, U);
    }
  }

  lemma OthersSame(g: Geometry, s0: State, s1: State, b: Path, v: nat, n: nat, w: nat)
    requires Fits(g, b, v, n) && Round(g, s0, s1, b, v, n, 1) && v < w < v + n
    ensures Look(s1, At(g, b, w)) == Look(s0, At(g, b, w))
  {
    AtIsPath(g, b, v);
    AtIsPath(g, b, w);
    if At(g, b, v) <= At(g, b, w) {
      assert At(g, b, v) == At(g, b, w);
      AtInjective(g, b, v, w);
    }
  }

  lemma CleanNext(g: Geometry, s0: State, s1: State, b: Path, v: nat, n: nat, k: nat, split: bool)
    requires Fits(g, b, v, n) && Round(g, s0, s1, b, v, n, k) && Clean(g, s0, b, v, n, split) && k < n
    ensures [] in s1.at && Clean(g, s1, b, v + k, n - k, split)
  {
    hide Round;
    hide CleanAt;
    RoundAligned(g, s0, s1, b, v, n, k, split);
    if HasBig(g, b) {
      var v', n' := v + k, n - k;
      forall w: nat | v' <= w < v' + n' ensures CleanAt(g, s1, b, v', n', split, w) {
        if w / ENTRIES != v / ENTRIES {
          CleanOther(g, s0, s1, b, v, n, k, split, w);
        } else {
          CleanSame(g, s0, s1, b, v, n, split, w);
        }
      }
    }
  }
}
