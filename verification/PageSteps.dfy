/** One page, one step: how the elementary tree changes act on a state along the walk of a page. */
module PageSteps {
  import opened Options
  import opened PageTree
  import opened PageRanges

  /** An upper-level entry is unchanged, and so is the table that holds it if there is something in the entry. */
  ghost predicate SlotKept(s0: State, s1: State, p: Path, i: nat) {
    && Slot(s1, p, i) == Slot(s0, p, i)
    && (Slot(s0, p, i) != Absent ==> p in s0.at && p in s1.at && s1.at[p] == s0.at[p])
  }

  /** Entries above the last level are kept unless they are on the walk of P. */
  ghost predicate KeptBeside(g: Geometry, s0: State, s1: State, P: Path) {
    forall p, i {:trigger SlotKept(s0, s1, p, i)} :: |p| + 1 < g.levels && !(p + [i] <= P) ==> SlotKept(s0, s1, p, i)
  }

  /** No table was added or replaced. */
  ghost predicate Shrunk(s0: State, s1: State) {
    forall q | q in s1.at :: q in s0.at && s1.at[q] == s0.at[q]
  }

  /** A well-formed successor that touched nothing but the tree, and in it only the walk of P. */
  ghost predicate Step(g: Geometry, s0: State, s1: State, b: Path, P: Path) {
    && Good(g, s0) && Good(g, s1) && Framed(s0, s1) && Rooted(s0, s1, b) && KeptBeside(g, s0, s1, P)
  }

  /** No 2 MiB entry was added or changed. */
  ghost predicate NoNewBig(g: Geometry, s0: State, s1: State) {
    g.levels >= 2 ==>
      forall Q {:trigger BigSlot(g, s1, Q)} | IsPath(Q, g.levels) && BigSlot(g, s1, Q).Page? ::
        BigSlot(g, s1, Q) == BigSlot(g, s0, Q)
  }

  /** A step that changes no translation. */
  ghost predicate Calm(g: Geometry, s0: State, s1: State, b: Path, P: Path) {
    Step(g, s0, s1, b, P) && NoNewBig(g, s0, s1) && SameLookups(g, s0.mem, s1.mem, s0.at[[]])
  }

  lemma StepSelf(g: Geometry, s: State, b: Path, P: Path)
    requires Good(g, s) && b in s.at
    ensures Calm(g, s, s, b, P)
  {
  }

  lemma KeptChain(g: Geometry, s0: State, s1: State, s2: State, P: Path)
    requires KeptBeside(g, s0, s1, P) && KeptBeside(g, s1, s2, P)
    ensures KeptBeside(g, s0, s2, P)
  {
    forall p: Path, i: nat | |p| + 1 < g.levels && !(p + [i] <= P) ensures SlotKept(s0, s2, p, i) {
      assert SlotKept(s0, s1, p, i) && SlotKept(s1, s2, p, i);
    }
  }

  lemma StepChain(g: Geometry, s0: State, s1: State, s2: State, b: Path, P: Path)
    requires Step(g, s0, s1, b, P) && Step(g, s1, s2, b, P)
    ensures Step(g, s0, s2, b, P)
  {
    KeptChain(g, s0, s1, s2, P);
  }

  lemma CalmChain(g: Geometry, s0: State, s1: State, s2: State, b: Path, P: Path)
    requires Calm(g, s0, s1, b, P) && Calm(g, s1, s2, b, P)
    ensures Calm(g, s0, s2, b, P)
  {
    StepChain(g, s0, s1, s2, b, P);
  }

  /** The walk position: depth d on the way to page P, at or below the table at b. */
  ghost predicate OnWalk(g: Geometry, s: State, b: Path, P: Path, d: nat) {
    IsPath(P, g.levels) && |b| <= d < g.levels && b <= P && b in s.at && P[..d] in s.at
  }

  // ---- The three changes ----

  function Hung(s: State, P: Path, d: nat, f: nat): State
    requires d < |P| && P[..d] in s.at && s.at[P[..d]] < |s.mem| && P[d] < |s.mem[s.at[P[..d]]]|
  {
    State(Put(s.mem, s.at[P[..d]], P[d], Next(f)), s.used + {f}, s.at[P[..d + 1] := f])
  }

  function Written(s: State, P: Path, d: nat, e: Pte): State
    requires d < |P| && P[..d] in s.at && s.at[P[..d]] < |s.mem| && P[d] < |s.mem[s.at[P[..d]]]|
  {
    s.(mem := Put(s.mem, s.at[P[..d]], P[d], e))
  }

  function Dropped(s: State, P: Path, d: nat): State
    requires d < |P| && P[..d] in s.at && s.at[P[..d]] < |s.mem| && P[d] < |s.mem[s.at[P[..d]]]|
    requires P[..d + 1] in s.at
  {
    State(Put(s.mem, s.at[P[..d]], P[d], Absent), s.used - {s.at[P[..d + 1]]}, s.at - {P[..d + 1]})
  }

  lemma ValuesAdd(at: map<Path, nat>, q: Path, f: nat)
    requires q !in at
    ensures at[q := f].Values == at.Values + {f}
  {
    forall x | x in at.Values + {f} ensures x in at[q := f].Values {
      if x in at.Values {
        var p :| p in at && at[p] == x;
        assert at[q := f][p] == x;
      } else {
        assert at[q := f][q] == f;
      }
    }
  }

  lemma ValuesRemove(at: map<Path, nat>, q: Path)
    requires q in at && forall p | p in at && at[p] == at[q] :: p == q
    ensures (at - {q}).Values == at.Values - {at[q]}
  {
    forall x | x in at.Values - {at[q]} ensures x in (at - {q}).Values {
      var p :| p in at && at[p] == x;
      assert p in at - {q};
    }
  }

  lemma HungBig(g: Geometry, s: State, s1: State, P: Path, d: nat, f: nat)
    requires Good(g, s) && IsPath(P, g.levels) && d + 1 < g.levels && P[..d] in s.at && f < |s.mem| && f !in s.used
    requires s1 == Hung(s, P, d, f)
    ensures NoNewBig(g, s, s1)
  {
    hide Shape;
    assert s.at[P[..d]] in s.at.Values;
    if g.levels >= 2 {
      forall Q | IsPath(Q, g.levels) && BigSlot(g, s1, Q).Page? ensures BigSlot(g, s1, Q) == BigSlot(g, s, Q) {
        assert Entry(s1.mem, f, Q[g.levels - 2]) == Absent;
      }
    }
  }

  lemma HangTable(g: Geometry, s: State, b: Path, P: Path, d: nat, f: nat)
    requires Good(g, s) && OnWalk(g, s, b, P, d) && d + 1 < g.levels
    requires Entry(s.mem, s.at[P[..d]], P[d]) == Absent && f < |s.mem| && f !in s.used
    ensures Calm(g, s, Hung(s, P, d, f), b, P) && OnWalk(g, Hung(s, P, d, f), b, P, d + 1)
  {
    hide NoNewBig;
    var s1 := Hung(s, P, d, f);
    HungBig(g, s, s1, P, d, f);
    assert P[..d + 1] == P[..d] + [P[d]];
    Grow(g, s.mem, s.at, P[..d], P[d], f);
    ValuesAdd(s.at, P[..d + 1], f);
    assert s.at[P[..d]] in s.at.Values;
    assert Framed(s, s1);
    assert KeptBeside(g, s, s1, P);
  }

  lemma WrittenBig(g: Geometry, s: State, s1: State, P: Path, d: nat, e: Pte)
    requires IsPath(P, g.levels) && d < g.levels && P[..d] in s.at && (d + 2 == g.levels ==> !e.Page?)
    requires s.at[P[..d]] < |s.mem| && P[d] < |s.mem[s.at[P[..d]]]|
    requires s1 == Written(s, P, d, e) && Tables(g, s.mem, s.at)
    ensures NoNewBig(g, s, s1)
  {
  }

  lemma WriteEntry(g: Geometry, s: State, b: Path, P: Path, d: nat, e: Pte)
    requires Good(g, s) && OnWalk(g, s, b, P, d)
    requires !Entry(s.mem, s.at[P[..d]], P[d]).Next? && !e.Next? && PageOk(g, d, e)
    ensures Step(g, s, Written(s, P, d, e), b, P)
    ensures SameOutside(g, s.mem, Written(s, P, d, e).mem, s.at[[]], P[..d + 1])
  {
    var s1 := Written(s, P, d, e);
    assert P[..d + 1] == P[..d] + [P[d]];
    SetLeaf(g, s.mem, s.at, P[..d], P[d], e);
    assert s.at[P[..d]] in s.at.Values;
    assert Framed(s, s1);
    assert KeptBeside(g, s, s1, P);
  }

  lemma DroppedBig(g: Geometry, s: State, s1: State, P: Path, d: nat)
    requires Good(g, s) && IsPath(P, g.levels) && d < g.levels && P[..d] in s.at && P[..d + 1] in s.at
    requires s1 == Dropped(s, P, d)
    ensures NoNewBig(g, s, s1)
  {
  }

  lemma DropTable(g: Geometry, s: State, b: Path, P: Path, d: nat)
    requires Good(g, s) && OnWalk(g, s, b, P, d) && P[..d + 1] in s.at && Blank(s.mem[s.at[P[..d + 1]]])
    ensures Calm(g, s, Dropped(s, P, d), b, P)
  {
    hide NoNewBig;
    var s1, f := Dropped(s, P, d), s.at[P[..d + 1]];
    DroppedBig(g, s, s1, P, d);
    assert P[..d + 1] == P[..d] + [P[d]];
    Prune(g, s.mem, s.at, P[..d], P[d]);
    ValuesRemove(s.at, P[..d + 1]);
    assert s.at[P[..d]] in s.at.Values;
    assert Framed(s, s1);
    assert KeptBeside(g, s, s1, P);
  }
}
