/**
 * Multi-level page tables as values: what a well-formed tree is, what it translates, and how the three elementary
 * changes of a tree (hang in a blank table, overwrite a non-table entry, drop a blank table) act on both.
 */
module PageTree {
  import opened Options

  const ENTRIES: nat := 512

  /** A decoded page-table entry: not present, the frame of the next-level table, or a terminal page. */
  datatype Pte = Absent | Next(frame: nat) | Page(pfn: nat, flags: nat)

  datatype Mapping = Mapping(pfn: nat, flags: nat)

  type Table = seq<Pte>

  /** Table indices from the root downwards; a full path names a page, a shorter one a table or an entry. */
  type Path = seq<nat>

  /** Number of levels, and whether the last but one supports terminal entries (2 MiB pages). */
  datatype Geometry = Geometry(levels: nat, big: bool) {
    predicate Valid() { levels >= 1 && (big ==> levels >= 2) }

    /** `page_size` of a level, counted from the root, in pages; 0 if the level has no terminal entries. */
    function PageSize(depth: nat): nat {
      if depth + 1 == levels then 1
      else if big && depth + 2 == levels then ENTRIES
      else 0
    }
  }

  // ---- Paths and page numbers ----

  predicate IsPath(p: Path, n: nat) {
    |p| == n && forall k | 0 <= k < n :: p[k] < ENTRIES
  }

  function Pow(h: nat): (r: nat)
    ensures r >= 1
  {
    if h == 0 then 1 else ENTRIES * Pow(h - 1)
  }

  /** The h lowest table indices of a virtual page number; higher bits are masked away. */
  function PathOf(v: nat, h: nat): (p: Path)
    ensures IsPath(p, h)
  {
    if h == 0 then [] else PathOf(v / ENTRIES, h - 1) + [v % ENTRIES]
  }

  /** The page number a sequence of indices stands for. */
  function Value(p: Path): nat {
    if p == [] then 0 else Value(p[..|p| - 1]) * ENTRIES + p[|p| - 1]
  }

  lemma {:induction false} PathOfInjective(a: nat, b: nat, h: nat)
    requires PathOf(a, h) == PathOf(b, h) && a <= b < a + Pow(h)
    ensures a == b
  {
    if h > 0 {
      var p, q := PathOf(a / ENTRIES, h - 1), PathOf(b / ENTRIES, h - 1);
      assert PathOf(a, h)[..h - 1] == p && PathOf(b, h)[..h - 1] == q;
      assert a % ENTRIES == PathOf(a, h)[h - 1] == PathOf(b, h)[h - 1] == b % ENTRIES;
      PathOfInjective(a / ENTRIES, b / ENTRIES, h - 1);
    }
  }

  lemma {:induction false} ValueOfPath(v: nat, h: nat)
    requires v < Pow(h)
    ensures Value(PathOf(v, h)) == v
  {
    if h > 0 {
      assert PathOf(v, h)[..h - 1] == PathOf(v / ENTRIES, h - 1);
      ValueOfPath(v / ENTRIES, h - 1);
    }
  }

  lemma {:induction false} PathOfValue(p: Path)
    requires IsPath(p, |p|)
    ensures Value(p) < Pow(|p|) && PathOf(Value(p), |p|) == p
  {
    if p != [] {
      var q := p[..|p| - 1];
      PathOfValue(q);
      assert p == q + [p[|p| - 1]];
    }
  }

  // ---- Tables in memory ----

  /** Entry i of table t; out of range reads as not present. */
  function Entry(mem: seq<Table>, t: nat, i: nat): Pte {
    if t < |mem| && i < |mem[t]| then mem[t][i] else Absent
  }

  function Put(mem: seq<Table>, t: nat, i: nat, e: Pte): (m: seq<Table>)
    requires t < |mem| && i < |mem[t]|
    ensures |m| == |mem| && |m[t]| == |mem[t]|
    ensures forall s | 0 <= s < |mem| && s != t :: m[s] == mem[s]
    ensures forall s, j {:trigger Entry(m, s, j)} :: Entry(m, s, j) == if s == t && j == i then e else Entry(mem, s, j)
  {
    mem[t := mem[t][i := e]]
  }

  lemma PutTwice(mem: seq<Table>, t: nat, i: nat, e: Pte, e': Pte)
    requires t < |mem| && i < |mem[t]|
    ensures Put(Put(mem, t, i, e), t, i, e') == Put(mem, t, i, e')
  {
    assert mem[t][i := e][i := e'] == mem[t][i := e'];
  }

  predicate Blank(t: Table) {
    |t| == ENTRIES && forall i | 0 <= i < ENTRIES :: t[i] == Absent
  }

  /** What a terminal write leaves: entries without the present flag are not valid. */
  function Terminal(pfn: nat, flags: nat): Pte {
    if flags % 2 == 1 then Page(pfn, flags) else Absent
  }

  function Mapped(pfn: nat, flags: nat): Option<Mapping> {
    if flags % 2 == 1 then Some(Mapping(pfn, flags)) else None
  }

  /** The hardware walk for page P from table t, which sits k levels below the root. */
  function Walk(mem: seq<Table>, t: nat, P: Path, k: nat): Option<Mapping>
    requires k < |P|
    decreases |P| - k
  {
    match Entry(mem, t, P[k])
    case Absent => None
    case Page(pfn, flags) => Some(Mapping(pfn + Value(P[k + 1..]), flags))
    case Next(f) => if k + 1 < |P| then Walk(mem, f, P, k + 1) else None
  }

  /** The translation of page P by the tree rooted at table `root`. */
  function Lookup(mem: seq<Table>, root: nat, P: Path): Option<Mapping> {
    if P == [] then None else Walk(mem, root, P, 0)
  }

  // ---- Well-formed trees ----

  /** `at` lists the tables of the tree by path; all of them are distinct tables of `mem`. */
  ghost predicate Tables(g: Geometry, mem: seq<Table>, at: map<Path, nat>) {
    && [] in at
    && (forall p | p in at :: |p| < g.levels && at[p] < |mem| && |mem[at[p]]| == ENTRIES)
    && (forall p, q | p in at && q in at && at[p] == at[q] :: p == q)
  }

  /** If entry i of the table at p refers to a table, that table is listed one step further down. */
  ghost predicate LeadsDown(mem: seq<Table>, at: map<Path, nat>, p: Path, i: nat) {
    p in at && Entry(mem, at[p], i).Next? ==> p + [i] in at && at[p + [i]] == Entry(mem, at[p], i).frame
  }

  /** If q lists a table other than the root, it hangs in the entry that q names. */
  ghost predicate HangsUp(mem: seq<Table>, at: map<Path, nat>, q: Path) {
    q in at && q != [] ==>
      q[..|q| - 1] in at && Entry(mem, at[q[..|q| - 1]], q[|q| - 1]) == Next(at[q])
  }

  ghost predicate Down(mem: seq<Table>, at: map<Path, nat>) {
    forall p, i {:trigger LeadsDown(mem, at, p, i)} :: LeadsDown(mem, at, p, i)
  }

  ghost predicate Up(mem: seq<Table>, at: map<Path, nat>) {
    forall q {:trigger HangsUp(mem, at, q)} :: HangsUp(mem, at, q)
  }

  ghost predicate PageOk(g: Geometry, depth: nat, e: Pte) {
    e.Page? ==> g.PageSize(depth) > 0 && e.pfn % g.PageSize(depth) == 0 && e.flags % 2 == 1
  }

  /** Terminal entries only where the geometry allows them, aligned and present. */
  ghost predicate Pages(g: Geometry, mem: seq<Table>, at: map<Path, nat>) {
    forall p, i {:trigger Entry(mem, at[p], i)} :: p in at ==> PageOk(g, |p|, Entry(mem, at[p], i))
  }

  /** A well-formed tree: each table but the root is reachable through exactly one entry. */
  ghost predicate Shape(g: Geometry, mem: seq<Table>, at: map<Path, nat>) {
    g.Valid() && Tables(g, mem, at) && Down(mem, at) && Up(mem, at) && Pages(g, mem, at)
  }

  /** Same translation for every page of the address space. */
  ghost predicate SameLookups(g: Geometry, m0: seq<Table>, m1: seq<Table>, root: nat) {
    forall P | IsPath(P, g.levels) :: Lookup(m1, root, P) == Lookup(m0, root, P)
  }

  /** Same translation for every page that is not under entry q. */
  ghost predicate SameOutside(g: Geometry, m0: seq<Table>, m1: seq<Table>, root: nat, q: Path) {
    forall P | IsPath(P, g.levels) && !(q <= P) :: Lookup(m1, root, P) == Lookup(m0, root, P)
  }

  // ---- Overwriting an entry that is not a table ----

  lemma {:induction false} WalkOutside(g: Geometry, mem: seq<Table>, at: map<Path, nat>,
                                       p: Path, i: nat, e: Pte, P: Path, k: nat)
    requires Shape(g, mem, at) && p in at && i < ENTRIES
    requires IsPath(P, g.levels) && k < g.levels && P[..k] in at && !(p + [i] <= P)
    ensures Walk(Put(mem, at[p], i, e), at[P[..k]], P, k) == Walk(mem, at[P[..k]], P, k)
    decreases g.levels - k
  {
    assert P[..k + 1] == P[..k] + [P[k]];
    assert LeadsDown(mem, at, P[..k], P[k]);
    if Entry(mem, at[P[..k]], P[k]).Next? {
      if k + 1 < g.levels {
        WalkOutside(g, mem, at, p, i, e, P, k + 1);
      }
    }
  }

  lemma {:induction false} WalkInside(g: Geometry, mem: seq<Table>, at: map<Path, nat>, P: Path, d: nat, k: nat)
    requires Shape(g, mem, at) && IsPath(P, g.levels) && k <= d < g.levels && P[..d] in at
    ensures P[..k] in at && Walk(mem, at[P[..k]], P, k) == Walk(mem, at[P[..d]], P, d)
    decreases d - k
  {
    if k < d {
      WalkInside(g, mem, at, P, d, k + 1);
      var q := P[..k + 1];
      assert q[..|q| - 1] == P[..k] && q[|q| - 1] == P[k] && HangsUp(mem, at, q);
    }
  }

  /** The walk of a page reaches the table listed for each of its prefixes. */
  lemma LookupAt(g: Geometry, mem: seq<Table>, at: map<Path, nat>, P: Path, d: nat)
    requires Shape(g, mem, at) && IsPath(P, g.levels) && d < g.levels && P[..d] in at
    ensures Lookup(mem, at[[]], P) == Walk(mem, at[P[..d]], P, d)
  {
    WalkInside(g, mem, at, P, d, 0);
    assert P[..0] == [];
  }

  /** Overwriting a non-table entry with a terminal or empty one keeps the tree and all other translations. */
  lemma SetLeaf(g: Geometry, mem: seq<Table>, at: map<Path, nat>, p: Path, i: nat, e: Pte)
    requires Shape(g, mem, at) && p in at && i < ENTRIES
    requires !Entry(mem, at[p], i).Next? && !e.Next? && PageOk(g, |p|, e)
    ensures Shape(g, Put(mem, at[p], i, e), at)
    ensures SameOutside(g, mem, Put(mem, at[p], i, e), at[[]], p + [i])
  {
    var m := Put(mem, at[p], i, e);
    forall q: Path, j: nat ensures LeadsDown(m, at, q, j) {
      assert LeadsDown(mem, at, q, j);
    }
    forall q ensures HangsUp(m, at, q) {
      assert HangsUp(mem, at, q);
    }
    forall P | IsPath(P, g.levels) && !(p + [i] <= P)
      ensures Lookup(Put(mem, at[p], i, e), at[[]], P) == Lookup(mem, at[[]], P)
    {
      assert P[..0] == [];
      WalkOutside(g, mem, at, p, i, e, P, 0);
    }
  }

  /** A page written into a leaf-level entry is what the walk of that page then finds. */
  lemma LeafLookup(g: Geometry, mem: seq<Table>, at: map<Path, nat>, P: Path, d: nat)
    requires Shape(g, mem, at) && IsPath(P, g.levels) && d < g.levels && P[..d] in at
    requires !Entry(mem, at[P[..d]], P[d]).Next?
    ensures Lookup(mem, at[[]], P) ==
            match Entry(mem, at[P[..d]], P[d])
            case Absent => None
            case Page(pfn, flags) => Some(Mapping(pfn + Value(P[d + 1..]), flags))
  {
    LookupAt(g, mem, at, P, d);
  }

  // ---- Hanging a blank table into an absent entry ----

  lemma GrowShape(g: Geometry, mem: seq<Table>, at: map<Path, nat>, p: Path, i: nat, f: nat)
    requires Shape(g, mem, at) && p in at && i < ENTRIES && |p| + 1 < g.levels
    requires Entry(mem, at[p], i) == Absent
    requires f < |mem| && f !in at.Values && Blank(mem[f])
    ensures p + [i] !in at
    ensures Shape(g, Put(mem, at[p], i, Next(f)), at[p + [i] := f])
  {
    var q, m := p + [i], Put(mem, at[p], i, Next(f));
    var at' := at[q := f];
    assert q[..|q| - 1] == p && q[|q| - 1] == i;
    assert HangsUp(mem, at, q);
    assert q !in at;
    forall r | r in at ensures at[r] != f {
      assert at[r] in at.Values;
    }
    forall r: Path, j: nat ensures LeadsDown(m, at', r, j) {
      assert LeadsDown(mem, at, r, j);
      if r + [j] == q {
        assert r == (r + [j])[..|r|] == p && j == i;
      }
    }
    forall r ensures HangsUp(m, at', r) {
      assert HangsUp(mem, at, r);
      if r in at' && r != [] && r != q {
        assert r == r[..|r| - 1] + [r[|r| - 1]];
      }
    }
  }

  lemma {:induction false} WalkGrown(g: Geometry, mem: seq<Table>, at: map<Path, nat>,
                                     p: Path, i: nat, f: nat, P: Path, k: nat)
    requires Shape(g, mem, at) && p in at && i < ENTRIES && |p| + 1 < g.levels
    requires Entry(mem, at[p], i) == Absent
    requires f < |mem| && f !in at.Values && Blank(mem[f])
    requires IsPath(P, g.levels) && k < g.levels && P[..k] in at
    ensures Walk(Put(mem, at[p], i, Next(f)), at[P[..k]], P, k) == Walk(mem, at[P[..k]], P, k)
    decreases g.levels - k
  {
    assert P[..k + 1] == P[..k] + [P[k]];
    assert LeadsDown(mem, at, P[..k], P[k]);
    assert at[p] in at.Values;
    if Entry(mem, at[P[..k]], P[k]).Next? && k + 1 < g.levels {
      WalkGrown(g, mem, at, p, i, f, P, k + 1);
    }
  }

  /** A blank table changes no translation. */
  lemma Grow(g: Geometry, mem: seq<Table>, at: map<Path, nat>, p: Path, i: nat, f: nat)
    requires Shape(g, mem, at) && p in at && i < ENTRIES && |p| + 1 < g.levels
    requires Entry(mem, at[p], i) == Absent
    requires f < |mem| && f !in at.Values && Blank(mem[f])
    ensures p + [i] !in at
    ensures Shape(g, Put(mem, at[p], i, Next(f)), at[p + [i] := f])
    ensures SameLookups(g, mem, Put(mem, at[p], i, Next(f)), at[[]])
  {
    GrowShape(g, mem, at, p, i, f);
    forall P | IsPath(P, g.levels)
      ensures Lookup(Put(mem, at[p], i, Next(f)), at[[]], P) == Lookup(mem, at[[]], P)
    {
      assert P[..0] == [];
      WalkGrown(g, mem, at, p, i, f, P, 0);
    }
  }

  // ---- Dropping a blank table ----

  lemma PruneShape(g: Geometry, mem: seq<Table>, at: map<Path, nat>, p: Path, i: nat)
    requires Shape(g, mem, at) && p in at && i < ENTRIES && p + [i] in at && Blank(mem[at[p + [i]]])
    ensures Shape(g, Put(mem, at[p], i, Absent), at - {p + [i]})
  {
    var q, m := p + [i], Put(mem, at[p], i, Absent);
    var at' := at - {q};
    forall r: Path, j: nat ensures LeadsDown(m, at', r, j) {
      assert LeadsDown(mem, at, r, j);
      if r + [j] == q {
        assert r == (r + [j])[..|r|] == p && j == i;
      }
    }
    forall r ensures HangsUp(m, at', r) {
      assert HangsUp(mem, at, r);
      if r in at' && r != [] {
        assert r == r[..|r| - 1] + [r[|r| - 1]];
        assert r[..|r| - 1] != q;
      }
    }
  }

  lemma {:induction false} WalkPruned(g: Geometry, mem: seq<Table>, at: map<Path, nat>,
                                      p: Path, i: nat, P: Path, k: nat)
    requires Shape(g, mem, at) && p in at && i < ENTRIES && p + [i] in at && Blank(mem[at[p + [i]]])
    requires IsPath(P, g.levels) && k < g.levels && P[..k] in at
    ensures Walk(Put(mem, at[p], i, Absent), at[P[..k]], P, k) == Walk(mem, at[P[..k]], P, k)
    decreases g.levels - k
  {
    assert P[..k + 1] == P[..k] + [P[k]];
    assert LeadsDown(mem, at, P[..k], P[k]);
    assert (p + [i])[..|p|] == p && HangsUp(mem, at, p + [i]);
    if Entry(mem, at[P[..k]], P[k]).Next? && k + 1 < g.levels {
      WalkPruned(g, mem, at, p, i, P, k + 1);
      if P[..k + 1] == p + [i] {
        assert Entry(mem, at[p + [i]], P[k + 1]) == Absent;
      }
    }
  }

  /** Neither does dropping one. */
  lemma Prune(g: Geometry, mem: seq<Table>, at: map<Path, nat>, p: Path, i: nat)
    requires Shape(g, mem, at) && p in at && i < ENTRIES && p + [i] in at && Blank(mem[at[p + [i]]])
    ensures Shape(g, Put(mem, at[p], i, Absent), at - {p + [i]})
    ensures SameLookups(g, mem, Put(mem, at[p], i, Absent), at[[]])
  {
    PruneShape(g, mem, at, p, i);
    forall P | IsPath(P, g.levels)
      ensures Lookup(Put(mem, at[p], i, Absent), at[[]], P) == Lookup(mem, at[[]], P)
    {
      assert P[..0] == [];
      WalkPruned(g, mem, at, p, i, P, 0);
    }
  }

  // ---- Writing outside the tree ----

  lemma {:induction false} WalkForeign(g: Geometry, mem: seq<Table>, at: map<Path, nat>,
                                       f: nat, i: nat, e: Pte, P: Path, k: nat)
    requires Shape(g, mem, at) && f < |mem| && f !in at.Values && i < |mem[f]|
    requires IsPath(P, g.levels) && k < g.levels && P[..k] in at
    ensures Walk(Put(mem, f, i, e), at[P[..k]], P, k) == Walk(mem, at[P[..k]], P, k)
    decreases g.levels - k
  {
    assert P[..k + 1] == P[..k] + [P[k]];
    assert LeadsDown(mem, at, P[..k], P[k]) && at[P[..k]] in at.Values;
    if Entry(mem, at[P[..k]], P[k]).Next? && k + 1 < g.levels {
      WalkForeign(g, mem, at, f, i, e, P, k + 1);
    }
  }

  /** A write into a page that is no table of the tree is not seen by the tree. */
  lemma ForeignWrite(g: Geometry, mem: seq<Table>, at: map<Path, nat>, f: nat, i: nat, e: Pte)
    requires Shape(g, mem, at) && f < |mem| && f !in at.Values && i < |mem[f]|
    ensures Shape(g, Put(mem, f, i, e), at) && SameLookups(g, mem, Put(mem, f, i, e), at[[]])
  {
    var m := Put(mem, f, i, e);
    forall q | q in at ensures at[q] != f {
      assert at[q] in at.Values;
    }
    forall q: Path, j: nat ensures LeadsDown(m, at, q, j) {
      assert LeadsDown(mem, at, q, j);
    }
    forall q ensures HangsUp(m, at, q) {
      assert HangsUp(mem, at, q);
    }
    forall P | IsPath(P, g.levels) ensures Lookup(m, at[[]], P) == Lookup(mem, at[[]], P) {
      assert P[..0] == [];
      WalkForeign(g, mem, at, f, i, e, P, 0);
    }
  }
}
