/**
 * Ranges of virtual pages below a table, and the two-state relations that the mapping operations establish on them.
 */
module PageRanges {
  import opened Arithmetic
  import opened Options
  import opened PageTree

  /** Memory, the pool pages in use, and the tables of one tree by path. */
  datatype State = State(mem: seq<Table>, used: set<nat>, at: map<Path, nat>)

  function Look(s: State, P: Path): Option<Mapping> {
    if [] in s.at then Lookup(s.mem, s.at[[]], P) else None
  }

  /** A well-formed tree whose tables are in use, over a pool whose free pages are blank (scrubbed when freed). */
  ghost predicate Good(g: Geometry, s: State) {
    && Shape(g, s.mem, s.at)
    && s.at.Values <= s.used
    && forall f | 0 <= f < |s.mem| && f !in s.used :: Blank(s.mem[f])
  }

  /** Pages in use by anything but the tree stay in use and keep their contents; no others are claimed. */
  ghost predicate Framed(s0: State, s1: State) {
    && |s1.mem| == |s0.mem|
    && s1.used - s1.at.Values == s0.used - s0.at.Values
    && forall f | f in s0.used - s0.at.Values && f < |s0.mem| :: s1.mem[f] == s0.mem[f]
  }

  /** The table at b and the root stay where they are. */
  ghost predicate Rooted(s0: State, s1: State, b: Path) {
    && [] in s0.at && [] in s1.at && s1.at[[]] == s0.at[[]]
    && b in s0.at && b in s1.at && s1.at[b] == s0.at[b]
  }

  function Slot(s: State, p: Path, i: nat): Pte {
    if p in s.at then Entry(s.mem, s.at[p], i) else Absent
  }

  // ---- Pages below a table ----

  /** The path of page v of the structures whose root table sits at path b. */
  function At(g: Geometry, b: Path, v: nat): (p: Path)
    requires |b| <= g.levels
    ensures |p| == g.levels
  {
    b + PathOf(v, g.levels - |b|)
  }

  /** The pages [v, v + n) exist below b. */
  ghost predicate Fits(g: Geometry, b: Path, v: nat, n: nat) {
    |b| < g.levels && IsPath(b, |b|) && v + n <= Pow(g.levels - |b|)
  }

  ghost predicate Within(g: Geometry, b: Path, v: nat, n: nat, P: Path)
    requires |b| <= g.levels
  {
    exists k: nat :: v <= k < v + n && P == At(g, b, k)
  }

  /** Entry q lies on the walk of some page of the range. */
  ghost predicate Touches(g: Geometry, b: Path, v: nat, n: nat, q: Path)
    requires |b| <= g.levels
  {
    exists k: nat :: v <= k < v + n && q <= At(g, b, k)
  }

  lemma AtIsPath(g: Geometry, b: Path, v: nat)
    requires |b| <= g.levels && IsPath(b, |b|)
    ensures IsPath(At(g, b, v), g.levels) && b <= At(g, b, v)
  {
  }

  lemma AtInjective(g: Geometry, b: Path, v: nat, w: nat)
    requires |b| <= g.levels && At(g, b, v) == At(g, b, w)
    requires v < Pow(g.levels - |b|) && w < Pow(g.levels - |b|)
    ensures v == w
  {
    hide PathOf;
    hide Pow;
    var h := g.levels - |b|;
    assert At(g, b, v)[|b|..] == PathOf(v, h) && At(g, b, w)[|b|..] == PathOf(w, h);
    ValueOfPath(v, h);
    ValueOfPath(w, h);
  }

  /** All but the last index of a page's path is the path of its block of 512 pages. */
  lemma BlockPath(g: Geometry, b: Path, v: nat)
    requires |b| < g.levels
    ensures At(g, b, v)[..g.levels - 1] == b + PathOf(v / ENTRIES, g.levels - |b| - 1)
    ensures At(g, b, v)[g.levels - 1] == v % ENTRIES
  {
  }

  lemma SameBlock(g: Geometry, b: Path, v: nat, w: nat)
    requires |b| < g.levels && v < Pow(g.levels - |b|) && w < Pow(g.levels - |b|)
    ensures At(g, b, v)[..g.levels - 1] == At(g, b, w)[..g.levels - 1] <==> v / ENTRIES == w / ENTRIES
  {
    var h := g.levels - |b| - 1;
    var x, y := v / ENTRIES, w / ENTRIES;
    assert Pow(h + 1) == ENTRIES * Pow(h);
    hide *;
    BlockPath(g, b, v);
    BlockPath(g, b, w);
    ValueOfPath(x, h);
    ValueOfPath(y, h);
    if b + PathOf(x, h) == b + PathOf(y, h) {
      assert PathOf(x, h) == (b + PathOf(x, h))[|b|..] == PathOf(y, h);
    }
  }

  /** The pages under a block entry are the 512 pages of the block. */
  lemma UnderBlock(g: Geometry, b: Path, v: nat, P: Path)
    requires |b| < g.levels && IsPath(P, g.levels) && At(g, b, v)[..g.levels - 1] <= P
    ensures P == At(g, b, v / ENTRIES * ENTRIES + P[g.levels - 1])
  {
    var w := v / ENTRIES * ENTRIES + P[g.levels - 1];
    BlockPath(g, b, v);
    BlockPath(g, b, w);
    assert w / ENTRIES == v / ENTRIES && w % ENTRIES == P[g.levels - 1];
    assert P == P[..g.levels - 1] + [P[g.levels - 1]];
    assert At(g, b, w) == At(g, b, w)[..g.levels - 1] + [At(g, b, w)[g.levels - 1]];
  }

  /** The table index at depth d, as the accessors compute it from the address bits. */
  function Index(g: Geometry, v: nat, d: nat): nat
    requires d < g.levels
  {
    v / Pow(g.levels - 1 - d) % ENTRIES
  }

  lemma DivDiv(v: nat, m: nat)
    requires m > 0
    ensures v / ENTRIES / m == v / (ENTRIES * m)
  {
    var q := v / ENTRIES / m;
    var r := v / ENTRIES - m * q;
    assert v - ENTRIES * m * q == ENTRIES * r + v % ENTRIES;
    assert 0 <= v - (ENTRIES * m) * q < ENTRIES * m;
    DivUnique(v, ENTRIES * m, q);
  }

  lemma {:induction false} IndexOfPath(v: nat, h: nat, j: nat)
    requires j < h
    ensures PathOf(v, h)[h - 1 - j] == v / Pow(j) % ENTRIES
  {
    if j > 0 {
      IndexOfPath(v / ENTRIES, h - 1, j - 1);
      DivDiv(v, Pow(j - 1));
    }
  }

  lemma IndexAt(g: Geometry, b: Path, v: nat, d: nat)
    requires |b| <= d < g.levels
    ensures At(g, b, v)[d] == Index(g, v, d) < ENTRIES
  {
    IndexOfPath(v, g.levels - |b|, g.levels - 1 - d);
  }

  // ---- 2 MiB entries ----

  /** Structures that include the level of 2 MiB entries. */
  predicate HasBig(g: Geometry, b: Path) {
    g.big && |b| + 2 <= g.levels
  }

  /** The walk of P gets as far as the table with the 2 MiB entries. */
  predicate ReachesBig(g: Geometry, s: State, P: Path)
    requires |P| == g.levels >= 2
  {
    P[..g.levels - 2] in s.at
  }

  /** The entry for the 2 MiB block of P. */
  function BigSlot(g: Geometry, s: State, P: Path): Pte
    requires |P| == g.levels >= 2
  {
    Slot(s, P[..g.levels - 2], P[g.levels - 2])
  }

  function BlockStart(w: nat): nat {
    w / ENTRIES * ENTRIES
  }
}
