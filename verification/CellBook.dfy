/** Which cells there are, and which CPU belongs to which. */
module CellBook {
  import opened Counting
  import opened CpuSets
  import opened Regions

  /** The root cell's id; its CPUs are kept apart from those of the other cells. */
  const ROOT: nat := 0

  datatype Cell = Cell(id: nat, name: string, cpus: CpuSet, regions: seq<Region>, loadable: bool)

  /**
   * The root cell's name and CPUs, the other cells in the order of the list, and per CPU the id of its cell. `all` are
   * the CPUs the root cell started with.
   */
  datatype Book = Book(all: CpuSet, name: string, root: CpuSet, cells: seq<Cell>, owner: seq<nat>)

  predicate HasId(cells: seq<Cell>, id: nat) { exists k :: 0 <= k < |cells| && cells[k].id == id }

  /** The root cell has the CPUs whose owner it is, and so has every other cell. */
  predicate RootHas(b: Book, c: nat) { In(c, b.root) <==> In(c, b.all) && c < |b.owner| && b.owner[c] == ROOT }

  predicate CellHas(b: Book, k: nat, c: nat)
    requires k < |b.cells|
  {
    In(c, b.cells[k].cpus) <==> In(c, b.all) && c < |b.owner| && b.owner[c] == b.cells[k].id
  }

  ghost predicate Cpus(b: Book) {
    && |b.all| == |b.root| == |b.owner| && (forall k | 0 <= k < |b.cells| :: |b.cells[k].cpus| <= |b.all|)
    && (forall c: nat :: RootHas(b, c))
    && (forall k: nat, c: nat | k < |b.cells| :: CellHas(b, k, c))
    && (forall c: nat | In(c, b.all) :: b.owner[c] == ROOT || HasId(b.cells, b.owner[c]))
  }

  predicate Names(b: Book) {
    && (forall k | 0 <= k < |b.cells| :: b.cells[k].id != ROOT && b.cells[k].name != b.name)
    && (forall j, k | 0 <= j < k < |b.cells| :: b.cells[j].id != b.cells[k].id && b.cells[j].name != b.cells[k].name)
  }

  ghost predicate Ok(b: Book) { Cpus(b) && Names(b) }

  /** Every CPU of the machine belongs to exactly one cell: the root cell or one of the others. */
  lemma Partition(b: Book, c: nat)
    requires Ok(b)
    ensures In(c, b.all) <==> In(c, b.root) || exists k :: 0 <= k < |b.cells| && In(c, b.cells[k].cpus)
    ensures forall k | 0 <= k < |b.cells| && In(c, b.cells[k].cpus) :: !In(c, b.root)
    ensures forall j, k | 0 <= j < k < |b.cells| && In(c, b.cells[j].cpus) :: !In(c, b.cells[k].cpus)
  {
    assert RootHas(b, c);
    forall k | 0 <= k < |b.cells| && In(c, b.cells[k].cpus) ensures In(c, b.all) && b.owner[c] == b.cells[k].id {
      assert CellHas(b, k, c);
    }
    if In(c, b.all) && b.owner[c] != ROOT {
      assert HasId(b.cells, b.owner[c]);
      var k :| 0 <= k < |b.cells| && b.cells[k].id == b.owner[c];
      assert CellHas(b, k, c);
    }
  }

  // ---- Cell ids ----

  ghost function Ids(cells: seq<Cell>): set<nat> {
    if cells == [] then {ROOT} else Ids(cells[..|cells| - 1]) + {cells[|cells| - 1].id}
  }

  lemma {:induction false} IdsAre(cells: seq<Cell>, id: nat)
    ensures id in Ids(cells) <==> id == ROOT || HasId(cells, id)
    ensures |Ids(cells)| <= |cells| + 1
  {
    if cells != [] {
      var k := |cells| - 1;
      IdsAre(cells[..k], id);
      if HasId(cells[..k], id) {
        var i :| 0 <= i < k && cells[..k][i].id == id;
        assert cells[i].id == id;
      }
      forall i | 0 <= i < k && cells[i].id == id ensures HasId(cells[..k], id) {
        assert cells[..k][i].id == id;
      }
    }
  }

  /** get_free_cell_id: the least id that no cell has; there are at most as many below it as there are cells. */
  method FreeId(cells: seq<Cell>) returns (id: nat)
    ensures id != ROOT && !HasId(cells, id)
    ensures forall i: nat | i < id :: i == ROOT || HasId(cells, i)
    ensures id <= |cells| + 1
  {
    id := 0;
    var free := false;
    while !free
      invariant forall i: nat | i < id :: i == ROOT || HasId(cells, i)
      invariant free ==> id != ROOT && !HasId(cells, id)
      invariant id <= |cells| + 1
      decreases !free, |cells| + 1 - id
    {
      free := id != ROOT;
      var k := 0;
      while free && k < |cells|
        invariant 0 <= k <= |cells|
        invariant free ==> id != ROOT && forall i | 0 <= i < k :: cells[i].id != id
        invariant !free ==> id == ROOT || HasId(cells, id)
      {
        if cells[k].id == id {
          free := false;
        } else {
          k := k + 1;
        }
      }
      if !free {
        UsedIds(cells, id + 1);
        id := id + 1;
      }
    }
  }

  lemma UsedIds(cells: seq<Cell>, n: nat)
    requires forall i: nat | i < n :: i == ROOT || HasId(cells, i)
    ensures n <= |cells| + 1
  {
    forall i: nat ensures (i in Ids(cells) <==> i == ROOT || HasId(cells, i)) && |Ids(cells)| <= |cells| + 1 {
      IdsAre(cells, i);
    }
    SubsetCount(UpTo(n), Ids(cells));
  }

  // ---- Moving CPUs ----

  function Without(root: CpuSet, cpus: CpuSet): (r: CpuSet)
    ensures |r| == |root| && forall c: nat :: In(c, r) <==> In(c, root) && !In(c, cpus)
  {
    seq(|root|, i requires 0 <= i < |root| => root[i] && !In(i, cpus))
  }

  function With(root: CpuSet, cpus: CpuSet): (r: CpuSet)
    ensures |r| == |root| && forall c: nat :: In(c, r) <==> c < |root| && (In(c, root) || In(c, cpus))
  {
    seq(|root|, i requires 0 <= i < |root| => root[i] || In(i, cpus))
  }

  function Owners(owner: seq<nat>, cpus: CpuSet, id: nat): (r: seq<nat>)
    ensures |r| == |owner| && forall c: nat | c < |owner| :: r[c] == if In(c, cpus) then id else owner[c]
  {
    seq(|owner|, i requires 0 <= i < |owner| => if In(i, cpus) then id else owner[i])
  }

  /** Giving the CPUs back right after they were taken restores everything. */
  lemma CpusRestored(b: Book, cpus: CpuSet, id: nat)
    requires Cpus(b) && forall c: nat | In(c, cpus) :: In(c, b.root)
    ensures With(Without(b.root, cpus), cpus) == b.root
    ensures Owners(Owners(b.owner, cpus, id), cpus, ROOT) == b.owner
  {
    assert forall c: nat | In(c, cpus) :: In(c, b.root) && RootHas(b, c);
  }

  function Created(b: Book, cell: Cell): Book {
    b.(root := Without(b.root, cell.cpus), cells := b.cells + [cell], owner := Owners(b.owner, cell.cpus, cell.id))
  }

  function Destroyed(b: Book, k: nat): Book
    requires k < |b.cells|
  {
    b.(root := With(b.root, b.cells[k].cpus), cells := b.cells[..k] + b.cells[k + 1..],
       owner := Owners(b.owner, b.cells[k].cpus, ROOT))
  }

  lemma CreatedOk(b: Book, cell: Cell)
    requires Ok(b) && cell.id != ROOT && !HasId(b.cells, cell.id) && forall c: nat | In(c, cell.cpus) :: In(c, b.root)
    requires |cell.cpus| <= |b.all| && cell.name != b.name
    requires forall k | 0 <= k < |b.cells| :: b.cells[k].name != cell.name
    ensures Ok(Created(b, cell))
  {
    var n := Created(b, cell);
    forall c: nat ensures RootHas(n, c) {
      assert RootHas(b, c);
    }
    forall k: nat, c: nat | k < |n.cells| ensures CellHas(n, k, c) {
      assert RootHas(b, c);
      assert k < |b.cells| ==> CellHas(b, k, c);
      assert In(c, b.all) ==> b.owner[c] != cell.id;
    }
    forall c: nat | In(c, n.all) ensures n.owner[c] == ROOT || HasId(n.cells, n.owner[c]) {
      if In(c, cell.cpus) {
        assert n.cells[|b.cells|].id == cell.id;
      } else if b.owner[c] != ROOT {
        var k :| 0 <= k < |b.cells| && b.cells[k].id == b.owner[c];
        assert n.cells[k].id == b.owner[c];
      }
    }
  }

  lemma DestroyedOk(b: Book, k: nat)
    requires Ok(b) && k < |b.cells|
    ensures Ok(Destroyed(b, k))
  {
    var n, gone := Destroyed(b, k), b.cells[k];
    forall c: nat ensures RootHas(n, c) {
      assert RootHas(b, c) && CellHas(b, k, c);
    }
    forall j: nat, c: nat | j < |n.cells| ensures CellHas(n, j, c) {
      var i := if j < k then j else j + 1;
      assert n.cells[j] == b.cells[i];
      assert CellHas(b, i, c) && CellHas(b, k, c);
    }
    forall c: nat | In(c, n.all) ensures n.owner[c] == ROOT || HasId(n.cells, n.owner[c]) {
      assert CellHas(b, k, c);
      if n.owner[c] != ROOT {
        var i :| 0 <= i < |b.cells| && b.cells[i].id == b.owner[c];
        assert n.cells[if i < k then i else i - 1].id == n.owner[c];
      }
    }
    forall i, j | 0 <= i < j < |n.cells| ensures n.cells[i].id != n.cells[j].id && n.cells[i].name != n.cells[j].name {
      var x, y := if i < k then i else i + 1, if j < k then j else j + 1;
      assert n.cells[i] == b.cells[x] && n.cells[j] == b.cells[y];
    }
  }

  /** Destroying a cell right after its creation restores the books. */
  lemma BookRestored(b: Book, cell: Cell)
    requires Ok(b) && forall c: nat | In(c, cell.cpus) :: In(c, b.root)
    ensures Destroyed(Created(b, cell), |b.cells|) == b
  {
    CpusRestored(b, cell.cpus, cell.id);
    assert (b.cells + [cell])[..|b.cells|] + (b.cells + [cell])[|b.cells| + 1..] == b.cells;
  }
}
