/** The page tables carry out what the cell management expects of a map from pages. */
module Layers {
  import opened Options
  import opened PageTree
  import opened Paging
  import PageRanges
  import PageRuns
  import Regions

  function AsMapping(e: Option<Regions.Entry>): Option<Mapping> {
    match e
    case None => None
    case Some(x) => Some(Mapping(x.phys, x.access))
  }

  /** The tree translates as the map says, over all pages it can address. */
  ghost predicate Represents(g: Geometry, s: PageRanges.State, m: Regions.PageMap) {
    forall w: nat | w < Pow(g.levels) :: PageRuns.View(g, s, w) == AsMapping(Regions.At(m, w))
  }

  /** The map after an operation that got through k pages. */
  function Applied(m: Regions.PageMap, op: PageRuns.Op, k: nat): Regions.PageMap {
    match op
    case Map(pfn, _, v, flags) => Regions.Mapped(m, v, pfn, k, flags)
    case Unmap(_, v) => Regions.Unmapped(m, v, k)
  }

  lemma AppliedAt(m: Regions.PageMap, op: PageRuns.Op, k: nat, w: nat)
    requires op.Map? ==> op.flags % 2 == 1
    ensures AsMapping(Regions.At(Applied(m, op, k), w)) == PageRuns.Effect(op, k, w, AsMapping(Regions.At(m, w)))
  {
    match op
    case Map(pfn, _, v, flags) => Regions.MappedAt(m, v, pfn, k, flags, w);
    case Unmap(_, v) => Regions.UnmappedAt(m, v, k, w);
  }

  /**
   * One operation on a tree that represents a map: afterwards it represents the map with the operation applied,
   * wholly on success and up to some page on failure, which is what Regions takes for granted. With 2 MiB pages this
   * needs that the operation is exact on the tree.
   */
  method Apply(t: PageTables, st: Structs, op: PageRuns.Op, ghost m: Regions.PageMap, ghost at: map<Path, nat>)
    returns (err: int, ghost k: nat, ghost at1: map<Path, nat>)
    requires t.Ready(st, [], at) && PageRuns.Addressed(st.g, op) && (op.Map? ==> op.flags % 2 == 1)
    requires Represents(st.g, t.S(at), m) && st.g.levels > 0 && PageRuns.Allowed(st.g, t.S(at), op)
    modifies t`mem, t.pool`usedPages, t.pool.bitmap
    ensures t.Ready(st, [], at1) && Represents(st.g, t.S(at1), Applied(m, op, k))
    ensures if err == 0 then k == op.n else err < 0 && (op.Map? || st.g.big) && k < op.n
  {
    hide PageRuns.View;
    hide Pow;
    hide PageRanges.Good;
    ghost var s := t.S(at);
    err, k, at1 := PageRuns.Perform(t, st, op, at);
    forall w: nat | w < Pow(st.g.levels)
      ensures PageRuns.View(st.g, t.S(at1), w) == AsMapping(Regions.At(Applied(m, op, k), w))
    {
      AppliedAt(m, op, k, w);
    }
  }
}
