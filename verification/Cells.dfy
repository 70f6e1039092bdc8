/** The management hypercalls: creating, starting, loading and destroying cells. */
module Cells {
  import opened Options
  import opened CpuSets
  import opened Regions
  import opened CellMemory
  import opened CellBook
  import opened Isolation

  const EPERM: int := 1
  const ENOENT: int := 2
  const E2BIG: int := 7
  const EBUSY: int := 16
  const EEXIST: int := 17
  const EINVAL: int := 22

  datatype Config = Config(name: string, cpus: CpuSet, regions: seq<Region>)

  /** The results of what cell_create calls or finds outside this model, in the order of the code. */
  datatype Attempt = Attempt(
    reconfigOk: bool,       // no other cell is locked
    mapHeader: int,         // mapping the configuration's header
    tooBig: bool,
    mapAll: int,            // mapping all of the configuration
    aligned: bool,          // check_mem_regions
    pages: bool,            // memory for the cell
    cpuSet: int,            // cell_init: memory for a large CPU set
    arch: int,              // arch_cell_create
    cellMap: nat -> int)    // mapping region n into the cell

  predicate NameTaken(b: Book,
                      name: string) { b.name == name || exists k :: 0 <= k < |b.cells| && b.cells[k].name == name }

  ghost predicate CpusFree(b: Book, cpus: CpuSet) { |cpus| <= |b.root| && forall c: nat | In(c, cpus) :: In(c, b.root) }

  /** The error with which a creation is refused before anything is changed, or 0. */
  ghost function Refusal(b: Book, cpu: nat, config: Config, a: Attempt): int {
    if !In(cpu, b.root) then -EPERM
    else if !a.reconfigOk then -EPERM
    else if a.mapHeader != 0 then a.mapHeader
    else if a.tooBig then -E2BIG
    else if NameTaken(b, config.name) then -EEXIST
    else if a.mapAll != 0 then a.mapAll
    else if !a.aligned then -EINVAL
    else if !a.pages then -ENOMEM
    else if a.cpuSet != 0 then a.cpuSet
    else if In(cpu, config.cpus) then -EBUSY
    else if !CpusFree(b, config.cpus) then -EBUSY
    else if a.arch != 0 then a.arch
    else 0
  }

  /** What functions outside this model return is 0 or a negative error code. */
  ghost predicate Sane(a: Attempt) {
    a.mapHeader <= 0 && a.mapAll <= 0 && a.cpuSet <= 0 && a.arch <= 0 && forall n: nat :: a.cellMap(n) <= 0
  }

  ghost predicate MapsAll(a: Attempt) { forall n: nat :: a.cellMap(n) == 0 }

  /** A CPU is parked, or it is reset to start its cell. */
  datatype Request = Park | Reset

  datatype Task = Start | SetLoadable | Destroy

  /** What the cells say: a destruction needs that no other cell is locked, everything the cell's own consent. */
  predicate Refused(task: Task, reconfigOk: bool, shutdownOk: bool) { (task == Destroy && !reconfigOk) || !shutdownOk }

  /** The error with which another command is refused, or 0. */
  function ManageRefusal(b: Book, task: Task, cpu: nat, id: nat, reconfigOk: bool, shutdownOk: bool): int {
    if !In(cpu, b.root) then -EPERM
    else if id == ROOT then -EINVAL
    else if !HasId(b.cells, id) then -ENOENT
    else if Refused(task, reconfigOk, shutdownOk) then -EPERM
    else 0
  }

  /** The cell at k made loadable or not. */
  function Marked(cells: seq<Cell>, k: nat, loadable: bool): seq<Cell>
    requires k < |cells|
  {
    cells[k := cells[k].(loadable := loadable)]
  }

  lemma MarkedOk(b: Book, k: nat, loadable: bool)
    requires Ok(b) && k < |b.cells|
    ensures Ok(b.(cells := Marked(b.cells, k, loadable)))
  {
    var n := b.(cells := Marked(b.cells, k, loadable));
    forall c: nat ensures RootHas(n, c) {
      assert RootHas(b, c);
    }
    forall j: nat, c: nat | j < |n.cells| ensures CellHas(n, j, c) {
      assert CellHas(b, j, c);
    }
    forall c: nat | In(c, n.all) ensures n.owner[c] == ROOT || HasId(n.cells, n.owner[c]) {
      if b.owner[c] != ROOT {
        var i :| 0 <= i < |b.cells| && b.cells[i].id == b.owner[c];
        assert n.cells[i].id == b.owner[c];
      }
    }
  }

  lemma Unchanged(regions: seq<Region>, m: PageMap)
    ensures Changes(regions, m, m)
  {
  }

  // ---- Runs ----

  datatype Command =
    | CreateIt(cpu: nat, config: Config, attempt: Attempt)
    | StartIt(cpu: nat, id: nat, shutdownOk: bool)
    | LoadIt(cpu: nat, id: nat, shutdownOk: bool)
    | DestroyIt(cpu: nat, id: nat, reconfigOk: bool, shutdownOk: bool)

  /** Ids are unique, so the last cell is the only one with its id. */
  lemma LastHasId(b: Book, id: nat)
    requires Ok(b) && b.cells != [] && b.cells[|b.cells| - 1].id == id
    ensures id != ROOT && HasId(b.cells, id)
    ensures forall k | 0 <= k < |b.cells| && b.cells[k].id == id :: k == |b.cells| - 1
  {
  }

  lemma MapRestored(config: seq<Region>, regions: seq<Region>, kind: Kind, dma: bool, before: PageMap, taken: PageMap,
                    after: PageMap)
    requires kind == if dma then PrivateDma else Private
    requires TakesAll(regions, kind, before, taken) && GivesAll(config, regions, Private, dma, taken, after)
    requires forall p: nat | Covered(regions, Private, p) :: At(before, p) == Configured(config, p, dma)
    ensures after == before
  {
    forall p: nat ensures At(after, p) == At(before, p) {
      if dma {
        DmaRestoredIff(config, regions, before, taken, after, p);
      } else {
        RestoredIff(config, regions, before, taken, after, p);
      }
    }
    assert forall p: nat :: p in after <==> At(after, p).Some?;
    assert forall p: nat :: p in before <==> At(before, p).Some?;
  }

  /** The caller is a CPU of the root cell, so it is not in another cell. */
  lemma CallerOutside(b: Book, k: nat, cpu: nat)
    requires Ok(b) && k < |b.cells| && In(cpu, b.root)
    ensures !In(cpu, b.cells[k].cpus)
  {
    Partition(b, cpu);
  }

  /** The live cells are disjoint, spare the hypervisor's pages, and the root cell is kept out of them. */
  ghost predicate Separated(cells: seq<Cell>, own: set<nat>, vtd: bool, ept: PageMap, dma: PageMap) {
    && Disjoint(cells) && (forall k | 0 <= k < |cells| :: Away(cells[k].regions, own))
    && Isolated(cells, Private, ept) && (vtd ==> Isolated(cells, PrivateDma, dma))
  }

  lemma CreateSeparates(cells: seq<Cell>, own: set<nat>, vtd: bool, cell: Cell, e0: PageMap, d0: PageMap, e1: PageMap,
                        d1: PageMap)
    requires Separated(cells, own, vtd, e0, d0) && MayAdd(cells, own, cell.regions)
    requires TakesAll(cell.regions, Private, e0, e1) && (vtd ==> TakesAll(cell.regions, PrivateDma, d0, d1))
    ensures Separated(cells + [cell], own, vtd, e1, d1)
  {
    hide Disjoint;
    hide Away;
    hide Isolated;
    hide MayAdd;
    hide TakesAll;
    MayAddIff(cells, own, cell);
    NewIsolated(cells, cell, Private, e0, e1);
    if vtd {
      NewIsolated(cells, cell, PrivateDma, d0, d1);
    }
  }

  lemma RollbackSeparates(cells: seq<Cell>, own: set<nat>, vtd: bool, regions: seq<Region>, config: seq<Region>,
                          e0: PageMap, d0: PageMap, e1: PageMap, d1: PageMap, e2: PageMap, d2: PageMap)
    requires Separated(cells, own, vtd, e0, d0) && MayAdd(cells, own, regions)
    requires TakesSome(regions, Private, e0, e1) && GivesSome(config, regions, Private, e1, e2)
    requires TakesSome(regions, PrivateDma, d0, d1) && GivesSome(config, regions, Private, d1, d2)
    ensures Separated(cells, own, vtd, e2, d2)
  {
    hide Disjoint;
    hide Away;
    hide Isolated;
    hide TakesSome;
    hide GivesSome;
    forall k | 0 <= k < |cells| ensures ApartFrom(cells[k].regions, regions) {
      ClearIff(cells[k].regions, regions);
    }
    RolledBack(cells, Private, config, regions, e0, e1, e2);
    RolledBack(cells, PrivateDma, config, regions, d0, d1, d2);
  }

  lemma OutsideRoot(b: Book, k: nat, cpu: nat)
    requires Ok(b) && k < |b.cells|
    ensures SetOf(b.root, cpu) !! SetOf(b.cells[k].cpus, -1) && |b.cells[k].cpus| <= |b.root| == |b.owner|
  {
    forall c: nat | In(c, b.cells[k].cpus) ensures !In(c, b.root) {
      Partition(b, c);
    }
  }

  /** A destroyed cell's CPUs are parked, and resumed again with the root cell's. */
  lemma ResumedWith(before: CpuSet, cpus: CpuSet, cpu: nat, stopped: set<nat>)
    requires |cpus| <= |before| && !In(cpu, cpus)
    ensures stopped + SetOf(before, cpu) + SetOf(cpus, -1) - SetOf(cpus, -1) - SetOf(With(before, cpus), cpu)
            == stopped - SetOf(before, cpu) - SetOf(cpus, -1)
  {
  }

  lemma StartSeparates(cells: seq<Cell>, k: nat, own: set<nat>, vtd: bool, e0: PageMap, d0: PageMap, e1: PageMap,
                       d1: PageMap)
    requires Separated(cells, own, vtd, e0, d0) && k < |cells|
    requires TakesAll(cells[k].regions, Loadable, e0, e1) && (vtd ==> TakesAll(cells[k].regions, LoadableDma, d0, d1))
    ensures Separated(Marked(cells, k, false), own, vtd, e1, d1)
  {
    hide Away;
    hide Isolated;
    DisjointLike(cells, Marked(cells, k, false));
    StartIsolated(cells, k, Private, e0, e1);
    if vtd {
      StartIsolated(cells, k, PrivateDma, d0, d1);
    }
  }

  lemma TakenSeparates(cells: seq<Cell>, own: set<nat>, vtd: bool, regions: seq<Region>,
                       e0: PageMap, d0: PageMap, e1: PageMap, d1: PageMap)
    requires Separated(cells, own, vtd, e0, d0)
    requires TakesSome(regions, Loadable, e0, e1) && TakesSome(regions, LoadableDma, d0, d1)
    ensures Separated(cells, own, vtd, e1, d1)
  {
    hide Away;
    hide Isolated;
    hide Disjoint;
    TakenIsolated(cells, Private, regions, Loadable, e0, e1);
    TakenIsolated(cells, PrivateDma, regions, LoadableDma, d0, d1);
  }

  lemma LoadSeparates(cells: seq<Cell>, k: nat, own: set<nat>, vtd: bool, config: seq<Region>,
                      e0: PageMap, d0: PageMap, e1: PageMap, d1: PageMap)
    requires Separated(cells, own, vtd, e0, d0) && k < |cells|
    requires GivesSome(config, cells[k].regions, Loadable, e0, e1)
    requires GivesSome(config, cells[k].regions, Loadable, d0, d1)
    ensures Separated(Marked(cells, k, true), own, vtd, e1, d1)
  {
    hide Away;
    hide Isolated;
    DisjointLike(cells, Marked(cells, k, true));
    LoadIsolated(cells, k, Private, config, e0, e1);
    if vtd {
      LoadIsolated(cells, k, PrivateDma, config, d0, d1);
    }
  }

  lemma DestroySeparates(cells: seq<Cell>, k: nat, own: set<nat>, vtd: bool, config: seq<Region>,
                         e0: PageMap, d0: PageMap, e1: PageMap, d1: PageMap)
    requires Separated(cells, own, vtd, e0, d0) && k < |cells|
    requires GivesSome(config, cells[k].regions, Private, e0, e1)
    requires GivesSome(config, cells[k].regions, Private, d0, d1)
    ensures Separated(cells[..k] + cells[k + 1..], own, vtd, e1, d1)
  {
    hide Away;
    hide Isolated;
    GoneIsolated(cells, k, Private, config, e0, e1);
    GoneIsolated(cells, k, PrivateDma, config, d0, d1);
    DisjointWithout(cells, k);
    var now := cells[..k] + cells[k + 1..];
    assert forall j | 0 <= j < |now| :: now[j] == cells[if j < k then j else j + 1];
  }

  /** Parked or resumed, every CPU of the root cell that was suspended goes on. */
  lemma ResumedAfter(before: CpuSet, cpus: CpuSet, cpu: nat, after: CpuSet, stopped: set<nat>)
    requires (forall c: nat | In(c, cpus) :: In(c, before)) && !In(cpu, cpus)
    requires after == before || after == Without(before, cpus)
    ensures stopped + SetOf(before, cpu) - SetOf(cpus, -1) - SetOf(after, cpu) == stopped - SetOf(before, cpu)
  {
  }

  /** The CPUs of the set below n have been asked for this, the others for what they were before. */
  ghost predicate AskedTo(before: map<nat, Request>, after: map<nat, Request>, bits: CpuSet, what: Request, n: nat) {
    forall c: nat :: if c < n && In(c, bits) then c in after && after[c] == what
                     else (c in after <==> c in before) && (c in before ==> after[c] == before[c])
  }

  ghost predicate Asked(before: map<nat, Request>, after: map<nat, Request>, bits: CpuSet, what: Request) {
    AskedTo(before, after, bits, what, |bits|)
  }

  /** Who is suspended, who was released though not suspended, and what the CPUs were asked for. */
  datatype Hold = Hold(stopped: set<nat>, strays: set<nat>, asked: map<nat, Request>)

  /** The CPUs of the set below n have been released with this request. */
  ghost predicate ReleasedTo(before: Hold, after: Hold, bits: CpuSet, what: Request, n: nat) {
    && after.stopped == before.stopped - SetTo(bits, -1, n)
    && after.strays == before.strays + (SetTo(bits, -1, n) - before.stopped)
    && AskedTo(before.asked, after.asked, bits, what, n)
  }

  function ReleaseOne(h: Hold, c: nat, what: Request): Hold {
    Hold(h.stopped - {c}, h.strays + ({c} - h.stopped), h.asked[c := what])
  }

  lemma ReleasedNone(h: Hold, bits: CpuSet, what: Request)
    ensures ReleasedTo(h, h, bits, what, 0)
  {
  }

  /** From one member of the set to the next, or past the end. */
  lemma ReleasedMore(before: Hold, mid: Hold, bits: CpuSet, what: Request, cpu: int, next: nat)
    requires -1 <= cpu < next <= |bits| && (next < |bits| ==> bits[next]) && (forall c | cpu < c < next :: !bits[c])
    requires ReleasedTo(before, mid, bits, what, cpu + 1)
    ensures ReleasedTo(before, if next < |bits| then ReleaseOne(mid, next, what) else mid, bits, what, next + 1)
  {
    var after := if next < |bits| then ReleaseOne(mid, next, what) else mid;
    var added: set<nat> := if next < |bits| then {next} else {};
    assert SetTo(bits, -1, next + 1) == SetTo(bits, -1, cpu + 1) + added;
  }

  lemma ReleasedAll(before: Hold, after: Hold, bits: CpuSet, what: Request)
    requires ReleasedTo(before, after, bits, what, |bits| + 1)
    ensures after.stopped == before.stopped - SetOf(bits, -1)
    ensures after.strays == before.strays + (SetOf(bits, -1) - before.stopped)
    ensures Asked(before.asked, after.asked, bits, what)
  {
    assert SetTo(bits, -1, |bits| + 1) == SetOf(bits, -1);
  }

  class Manager {
    const mem: RootMemory
    const all: CpuSet
    const name: string
    const owner: array<nat>
    /** The hypervisor's own pages. */
    const own: set<nat>
    var root: CpuSet
    var cells: seq<Cell>
    var numCells: nat
    /** The CPUs that are suspended; the ghost records those that were parked or reset although they were not. */
    var stopped: set<nat>
    ghost var strays: set<nat>
    /** What the CPUs that were released were asked for last. */
    var asked: map<nat, Request>
    /** The root cell's mappings when the first cell was created. */
    ghost const ept0: PageMap
    ghost const dma0: PageMap

    ghost function View(): Book
      reads this, owner
    {
      Book(all, name, root, cells, owner[..])
    }

    ghost function Held(): Hold
      reads this
    {
      Hold(stopped, strays, asked)
    }

    ghost predicate RootMapsOk()
      reads this, mem
    {
      && OneToOne(mem.config) && Straight(ept0, own) && Straight(dma0, own)
      && RootOnly(mem.config, ept0, mem.ept) && RootOnly(mem.config, dma0, mem.dma)
    }

    ghost predicate Valid()
      reads this, owner, mem
    {
      Ok(View()) && numCells == |cells| + 1 && RootMapsOk()
    }

    ghost predicate Separate()
      reads this, mem
    {
      Separated(cells, own, mem.vtd, mem.ept, mem.dma)
    }

    /** The root cell's first mappings lead to themselves or to pages of the hypervisor. */
    constructor (mem: RootMemory, name: string, cpus: CpuSet, own: set<nat>)
      requires OneToOne(mem.config) && Straight(mem.ept, own) && Straight(mem.dma, own)
      ensures Valid() && Separate() && fresh(owner) && this.mem == mem && cells == [] && root == cpus && this.own == own
      ensures stopped == {} && strays == {} && asked == map[] && this.name == name
    {
      this.mem := mem;
      this.name := name;
      this.own := own;
      all, root := cpus, cpus;
      owner := new nat[|cpus|](_ => ROOT);
      cells, numCells := [], 1;
      stopped, strays, asked := {}, {}, map[];
      ept0, dma0 := mem.ept, mem.dma;
    }

    // ---- CPUs ----

    /** cell_suspend */
    method Suspend(bits: CpuSet, caller: nat)
      modifies this`stopped
      ensures stopped == old(stopped) + SetOf(bits, caller)
    {
      var cpu: int := -1;
      while cpu < |bits|
        invariant -1 <= cpu <= |bits| && stopped == old(stopped) + SetTo(bits, caller, cpu + 1)
        decreases |bits| - cpu
      {
        cpu := NextCpu(cpu, bits, caller);
        if cpu < |bits| {
          stopped := stopped + {cpu};
        }
      }
    }

    /** cell_resume on the caller's cell, the root cell */
    method Resume(caller: nat)
      modifies this`stopped
      ensures stopped == old(stopped) - SetOf(root, caller)
    {
      var cpu: int := -1;
      while cpu < |root|
        invariant -1 <= cpu <= |root| && stopped == old(stopped) - SetTo(root, caller, cpu + 1)
        decreases |root| - cpu
      {
        cpu := NextCpu(cpu, root, caller);
        if cpu < |root| {
          stopped := stopped - {cpu};
        }
      }
    }

    /** The loops that park or reset the CPUs of a cell, which also resumes them. */
    method Release(bits: CpuSet, what: Request)
      modifies this`stopped, this`strays, this`asked
      ensures stopped == old(stopped) - SetOf(bits, -1) && strays == old(strays) + (SetOf(bits, -1) - old(stopped))
      ensures Asked(old(asked), asked, bits, what)
    {
      hide ReleasedTo;
      hide AskedTo;
      hide SetTo;
      ghost var held := Held();
      var cpu: int := -1;
      ReleasedNone(held, bits, what);
      while cpu < |bits|
        invariant -1 <= cpu <= |bits|
        invariant ReleasedTo(held, Held(), bits, what, cpu + 1)
        decreases |bits| - cpu
      {
        ghost var was := cpu;
        cpu := NextCpu(cpu, bits, -1);
        ReleasedMore(held, Held(), bits, what, was, cpu);
        if cpu < |bits| {
          strays := strays + ({cpu} - stopped);
          stopped := stopped - {cpu};
          asked := asked[cpu := what];
        }
      }
      ReleasedAll(held, Held(), bits, what);
    }

    /** The loop of cell_create that parks the CPUs and takes them from the root cell. */
    method TakeCpus(cpus: CpuSet, id: nat)
      requires |cpus| <= |root| == owner.Length
      modifies this`root, this`stopped, this`strays, this`asked, owner
      ensures root == Without(old(root), cpus) && owner[..] == Owners(old(owner[..]), cpus, id)
      ensures stopped == old(stopped) - SetOf(cpus, -1) && strays == old(strays) + (SetOf(cpus, -1) - old(stopped))
      ensures Asked(old(asked), asked, cpus, Park)
    {
      hide ReleasedTo;
      hide AskedTo;
      hide SetTo;
      ghost var held := Held();
      var cpu: int := -1;
      ReleasedNone(held, cpus, Park);
      while cpu < |cpus|
        invariant -1 <= cpu <= |cpus| <= |root| == owner.Length == |old(root)|
        invariant ReleasedTo(held, Held(), cpus, Park, cpu + 1)
        invariant forall i | 0 <= i < |root| :: root[i] == if i <= cpu && In(i, cpus) then false else old(root)[i]
        invariant forall i | 0 <= i < |root| :: owner[i] == if i <= cpu && In(i, cpus) then id else old(owner[i])
        decreases |cpus| - cpu
      {
        ghost var was := cpu;
        cpu := NextCpu(cpu, cpus, -1);
        ReleasedMore(held, Held(), cpus, Park, was, cpu);
        if cpu < |cpus| {
          strays := strays + ({cpu} - stopped);
          stopped := stopped - {cpu};
          asked := asked[cpu := Park];
          root := root[cpu := false];
          owner[cpu] := id;
        }
      }
      ReleasedAll(held, Held(), cpus, Park);
      assert owner[..] == Owners(old(owner[..]), cpus, id);
    }

    /** The loop of cell_destroy_internal that parks the CPUs and gives them back. */
    method GiveCpus(cpus: CpuSet)
      requires |cpus| <= |root| == owner.Length
      modifies this`root, this`stopped, this`strays, this`asked, owner
      ensures root == With(old(root), cpus) && owner[..] == Owners(old(owner[..]), cpus, ROOT)
      ensures stopped == old(stopped) - SetOf(cpus, -1) && strays == old(strays) + (SetOf(cpus, -1) - old(stopped))
      ensures Asked(old(asked), asked, cpus, Park)
    {
      hide ReleasedTo;
      hide AskedTo;
      hide SetTo;
      ghost var held := Held();
      var cpu: int := -1;
      ReleasedNone(held, cpus, Park);
      while cpu < |cpus|
        invariant -1 <= cpu <= |cpus| <= |root| == owner.Length == |old(root)|
        invariant ReleasedTo(held, Held(), cpus, Park, cpu + 1)
        invariant forall i | 0 <= i < |root| :: root[i] == if i <= cpu && In(i, cpus) then true else old(root)[i]
        invariant forall i | 0 <= i < |root| :: owner[i] == if i <= cpu && In(i, cpus) then ROOT else old(owner[i])
        decreases |cpus| - cpu
      {
        ghost var was := cpu;
        cpu := NextCpu(cpu, cpus, -1);
        ReleasedMore(held, Held(), cpus, Park, was, cpu);
        if cpu < |cpus| {
          strays := strays + ({cpu} - stopped);
          stopped := stopped - {cpu};
          asked := asked[cpu := Park];
          root := root[cpu := true];
          owner[cpu] := ROOT;
        }
      }
      ReleasedAll(held, Held(), cpus, Park);
      assert owner[..] == Owners(old(owner[..]), cpus, ROOT);
    }

    method NameExists(n: string) returns (found: bool)
      ensures found <==> NameTaken(View(), n)
    {
      found := name == n;
      for k := 0 to |cells|
        invariant found <==> name == n || exists i :: 0 <= i < k && cells[i].name == n
      {
        found := found || cells[k].name == n;
      }
    }

    /** The root cell's CPU set must contain the new cell's. */
    method CanTake(cpus: CpuSet) returns (ok: bool)
      ensures ok <==> CpusFree(View(), cpus)
    {
      if |root| < |cpus| {
        return false;
      }
      var cpu: int := -1;
      while cpu < |cpus|
        invariant -1 <= cpu <= |cpus|
        invariant forall c: nat | c <= cpu && In(c, cpus) :: In(c, root)
        decreases |cpus| - cpu
      {
        cpu := NextCpu(cpu, cpus, -1);
        if cpu < |cpus| && !root[cpu] {
          assert In(cpu, cpus) && !In(cpu, root);
          return false;
        }
      }
      return true;
    }

    // ---- Creating ----

    /**
     * cell_create on one CPU. The code does not check the cell's memory; if it passes the test, the cells stay apart.
     * Nobody stays suspended; only a rollback parks CPUs that are not suspended any more, those of the new cell.
     */
    method Create(cpu: nat, config: Config, a: Attempt) returns (ret: int)
      requires Valid() && Sane(a)
      modifies this`root, this`cells, this`numCells, this`stopped, this`strays, this`asked, owner, mem
      ensures Valid()
      ensures old(Separate()) && MayAdd(old(cells), own, config.regions) ==> Separate()
      ensures Refusal(old(View()), cpu, config, a) != 0 ==>
                && ret == Refusal(old(View()), cpu, config, a) && mem.ept == old(mem.ept) && mem.dma == old(mem.dma)
                && strays == old(strays) && (old(Separate()) ==> Separate())
      ensures ret <= 0 ==> ret < 0 && View() == old(View()) && numCells == old(numCells)
      ensures var admissible :=
                && In(cpu, old(root)) && a.reconfigOk && !a.tooBig && a.aligned && a.pages
                && a.mapHeader == a.mapAll == a.cpuSet == a.arch == 0
                && config.name != name && (forall k | 0 <= k < |old(cells)| :: old(cells)[k].name != config.name)
                && !In(cpu, config.cpus) && (forall c: nat | In(c, config.cpus) :: In(c, old(root)))
                && |config.cpus| <= |old(root)|;
              if admissible then Asked(old(asked), asked, config.cpus, Park)
              else ret < 0 && mem.ept == old(mem.ept) && mem.dma == old(mem.dma) && asked == old(asked)
      ensures !In(cpu, old(root)) || !a.reconfigOk ==> ret == -EPERM
      ensures Refusal(old(View()), cpu, config, a) == 0 && Roomy(mem, config.regions) && MapsAll(a) ==> ret > 0
      ensures In(cpu, old(root)) ==> In(cpu, root)
      ensures stopped == if In(cpu, old(root)) then old(stopped) - SetOf(old(root), cpu) else old(stopped)
      ensures strays ==
              if Refusal(old(View()), cpu, config, a) == 0 && ret < 0 then old(strays) + SetOf(config.cpus, -1)
                        else old(strays)
      ensures Changes(config.regions, old(mem.ept), mem.ept) && Changes(config.regions, old(mem.dma), mem.dma)
      ensures ret > 0 ==>
                && View() == Created(old(View()), Cell(ret, config.name, config.cpus, config.regions, false))
                && (forall i: nat | i < ret :: i == ROOT || HasId(old(cells), i))
                && TakesAll(config.regions, Private, old(mem.ept), mem.ept)
                && (mem.vtd ==> TakesAll(config.regions, PrivateDma, old(mem.dma), mem.dma))
    {
      hide Ok;
      hide RootOnly;
      hide Separated;
      hide MayAdd;
      hide TakesAll;
      hide Changes;
      Unchanged(config.regions, mem.ept);
      Unchanged(config.regions, mem.dma);
      if !In(cpu, root) {
        return -EPERM;
      }
      Suspend(root, cpu);
      ret := Admit(cpu, config, a);
      if ret == 0 {
        var id := FreeId(cells);
        ret := CreateCell(id, config, a.cellMap);
        ResumedAfter(old(root), config.cpus, cpu, root, old(stopped));
      }
      Resume(cpu);
    }

    /** What stands against a creation, once the caller is known to be in the root cell. */
    method Admit(cpu: nat, config: Config, a: Attempt) returns (ret: int)
      requires In(cpu, root)
      ensures ret == Refusal(View(), cpu, config, a)
      ensures ret == if !a.reconfigOk then -EPERM
                     else if a.mapHeader != 0 then a.mapHeader
                     else if a.tooBig then -E2BIG
                     else if name == config.name then -EEXIST
                     else if exists k :: 0 <= k < |cells| && cells[k].name == config.name then -EEXIST
                     else if a.mapAll != 0 then a.mapAll
                     else if !a.aligned then -EINVAL
                     else if !a.pages then -ENOMEM
                     else if a.cpuSet != 0 then a.cpuSet
                     else if In(cpu, config.cpus) || |root| < |config.cpus| then -EBUSY
                     else if exists c: nat :: In(c, config.cpus) && !In(c, root) then -EBUSY
                     else a.arch
    {
      if !a.reconfigOk {
        return -EPERM;
      }
      if a.mapHeader != 0 {
        return a.mapHeader;
      }
      if a.tooBig {
        return -E2BIG;
      }
      var taken := NameExists(config.name);
      if taken {
        return -EEXIST;
      }
      if a.mapAll != 0 {
        return a.mapAll;
      }
      if !a.aligned {
        return -EINVAL;
      }
      if !a.pages {
        return -ENOMEM;
      }
      if a.cpuSet != 0 {
        return a.cpuSet;
      }
      if In(cpu, config.cpus) {
        return -EBUSY;
      }
      var ok := CanTake(config.cpus);
      if !ok {
        return -EBUSY;
      }
      return a.arch;
    }

    /** cell_create once nothing stands against it. */
    method CreateCell(id: nat, config: Config, cellMap: nat -> int) returns (ret: int)
      requires Valid() && CpusFree(View(), config.cpus)
      requires id != ROOT && !HasId(cells, id) && !NameTaken(View(), config.name)
      requires SetOf(config.cpus, -1) <= stopped && forall n: nat :: cellMap(n) <= 0
      modifies this`root, this`cells, this`numCells, this`stopped, this`strays, this`asked, owner, mem
      ensures Valid() && (ret == id || ret < 0)
      ensures old(Separate()) && MayAdd(old(cells), own, config.regions) ==> Separate()
      ensures stopped == old(stopped) - SetOf(config.cpus, -1)
      ensures strays == if ret < 0 then old(strays) + SetOf(config.cpus, -1) else old(strays)
      ensures Asked(old(asked), asked, config.cpus, Park)
      ensures ret < 0 ==> View() == old(View()) && numCells == old(numCells)
      ensures Changes(config.regions, old(mem.ept), mem.ept) && Changes(config.regions, old(mem.dma), mem.dma)
      ensures Roomy(mem, config.regions) && (forall n: nat :: cellMap(n) == 0) ==> ret == id
      ensures ret == id ==>
                && View() == Created(old(View()), Cell(id, config.name, config.cpus, config.regions, false))
                && TakesAll(config.regions, Private, old(mem.ept), mem.ept)
                && (mem.vtd ==> TakesAll(config.regions, PrivateDma, old(mem.dma), mem.dma))
    {
      hide Covered;
      hide Separated;
      hide MayAdd;
      hide RootOnly;
      hide TakesSome;
      hide TakesAll;
      hide GivesSome;
      hide Changes;
      ghost var b, e0, d0 := View(), mem.ept, mem.dma;
      var cell := Cell(id, config.name, config.cpus, config.regions, false);
      TakeCpus(config.cpus, id);
      var err := TakeMemory(mem, config.regions, cellMap);
      ghost var e1, d1 := mem.ept, mem.dma;
      TakeRootOnly(mem.config, ept0, config.regions, Private, e0, e1);
      TakeRootOnly(mem.config, dma0, config.regions, PrivateDma, d0, d1);
      if err != 0 {
        ghost var clean := DestroyInternal(config.cpus, config.regions);
        CpusRestored(b, config.cpus, id);
        GiveRootOnly(mem.config, ept0, config.regions, Private, e1, mem.ept);
        GiveRootOnly(mem.config, dma0, config.regions, Private, d1, mem.dma);
        RollbackChanges(Private, mem.config, config.regions, e0, e1, mem.ept);
        RollbackChanges(PrivateDma, mem.config, config.regions, d0, d1, mem.dma);
        if old(Separate()) && MayAdd(cells, own, config.regions) {
          RollbackSeparates(cells, own, mem.vtd, config.regions, mem.config, e0, d0, e1, d1, mem.ept, mem.dma);
        }
        return err;
      }
      TakeChanges(config.regions, Private, e0, e1);
      TakeChanges(config.regions, PrivateDma, d0, d1);
      if old(Separate()) && MayAdd(cells, own, config.regions) {
        CreateSeparates(cells, own, mem.vtd, cell, e0, d0, e1, d1);
      }
      CreatedOk(b, cell);
      cells := cells + [cell];
      numCells := numCells + 1;
      return id;
    }

    /** cell_destroy_internal */
    method DestroyInternal(cpus: CpuSet, regions: seq<Region>) returns (ghost clean: bool)
      requires |cpus| <= |root| == owner.Length && OneToOne(mem.config)
      modifies this`root, this`stopped, this`strays, this`asked, owner, mem
      ensures root == With(old(root), cpus) && owner[..] == Owners(old(owner[..]), cpus, ROOT)
      ensures stopped == old(stopped) - SetOf(cpus, -1) && strays == old(strays) + (SetOf(cpus, -1) - old(stopped))
      ensures Asked(old(asked), asked, cpus, Park)
      ensures GivesSome(mem.config, regions, Private, old(mem.ept), mem.ept)
      ensures GivesSome(mem.config, regions, Private, old(mem.dma), mem.dma)
      ensures Roomy(mem, regions) ==> clean
      ensures clean ==> GivesAll(mem.config, regions, Private, false, old(mem.ept), mem.ept)
      ensures clean && mem.vtd ==> GivesAll(mem.config, regions, Private, true, old(mem.dma), mem.dma)
      ensures !mem.vtd ==> mem.dma == old(mem.dma)
    {
      GiveCpus(cpus);
      ghost var failed;
      clean, failed := GiveMemory(mem, regions);
    }

    // ---- Managing ----

    /**
     * cell_management_prologue: finds the cell and asks whether the command is allowed. On success the CPUs of the
     * root cell and of the cell are suspended, otherwise nobody stays suspended.
     */
    method Prologue(task: Task, cpu: nat, id: nat, reconfigOk: bool, shutdownOk: bool) returns (err: int, k: nat)
      requires Ok(View())
      modifies this`stopped
      ensures err == ManageRefusal(View(), task, cpu, id, reconfigOk, shutdownOk)
      ensures err == 0 ==>
                && k < |cells| && cells[k].id == id && !In(cpu, cells[k].cpus)
                && stopped == old(stopped) + SetOf(root, cpu) + SetOf(cells[k].cpus, -1)
      ensures err != 0 ==> stopped == if In(cpu, root) then old(stopped) - SetOf(root, cpu) else old(stopped)
    {
      k := 0;
      if !In(cpu, root) {
        return -EPERM, 0;
      }
      Suspend(root, cpu);
      while k < |cells| && cells[k].id != id
        invariant 0 <= k <= |cells| && forall i | 0 <= i < k :: cells[i].id != id
      {
        k := k + 1;
      }
      if k == |cells| && id != ROOT {
        Resume(cpu);
        return -ENOENT, 0;
      }
      if id == ROOT {
        Resume(cpu);
        return -EINVAL, 0;
      }
      if (task == Destroy && !reconfigOk) || !shutdownOk {
        Resume(cpu);
        return -EPERM, k;
      }
      CallerOutside(View(), k, cpu);
      Suspend(cells[k].cpus, cpu);
      assert SetOf(cells[k].cpus, cpu) == SetOf(cells[k].cpus, -1);
      return 0, k;
    }

    /** cell_start. If taking the loadable regions fails, the cell's CPUs stay suspended. */
    method StartCell(cpu: nat, id: nat, shutdownOk: bool) returns (ret: int)
      requires Valid()
      modifies this`cells, this`stopped, this`strays, this`asked, mem
      ensures Valid() && (old(Separate()) ==> Separate())
      ensures root == old(root) && owner[..] == old(owner[..]) && numCells == old(numCells) && strays == old(strays)
      ensures !(In(cpu, root) && id != ROOT && HasId(old(cells), id) && shutdownOk) ==>
                && ret == (if !In(cpu, root) then -EPERM else if id == ROOT then -EINVAL
                           else if HasId(old(cells), id) then -EPERM else -ENOENT)
                && cells == old(cells) && mem.ept == old(mem.ept) && mem.dma == old(mem.dma) && asked == old(asked)
      ensures ManageRefusal(old(View()), Start, cpu, id, true, shutdownOk) != 0 ==>
                && ret == ManageRefusal(old(View()), Start, cpu, id, true, shutdownOk)
                && cells == old(cells) && mem.ept == old(mem.ept) && mem.dma == old(mem.dma)
                && stopped == if In(cpu, root) then old(stopped) - SetOf(root, cpu) else old(stopped)
      ensures ret != 0 && ManageRefusal(old(View()), Start, cpu, id, true, shutdownOk) == 0 ==> exists k: nat ::
                && k < |old(cells)| && old(cells)[k].id == id && old(cells)[k].loadable && cells == old(cells)
                && !Roomy(mem, cells[k].regions)
                && TakesSome(cells[k].regions, Loadable, old(mem.ept), mem.ept)
                && TakesSome(cells[k].regions, LoadableDma, old(mem.dma), mem.dma)
                && stopped == old(stopped) - SetOf(root, cpu) + SetOf(cells[k].cpus, -1) && asked == old(asked)
      ensures ret == 0 ==> exists k: nat ::
                && k < |old(cells)| && old(cells)[k].id == id
                && cells == old(cells)[k := old(cells)[k].(loadable := false)]
                && Asked(old(asked), asked, cells[k].cpus, Reset)
                && stopped == old(stopped) - SetOf(root, cpu) - SetOf(cells[k].cpus, -1)
                && if old(cells)[k].loadable then
                     && TakesAll(cells[k].regions, Loadable, old(mem.ept), mem.ept)
                     && (mem.vtd ==> TakesAll(cells[k].regions, LoadableDma, old(mem.dma), mem.dma))
                   else mem.ept == old(mem.ept) && mem.dma == old(mem.dma)
    {
      hide Separated;
      hide SetOf;
      hide RootOnly;
      hide TakesSome;
      hide TakesAll;
      hide Ok;
      var k;
      ret, k := Prologue(Start, cpu, id, true, shutdownOk);
      if ret != 0 {
        return;
      }
      ghost var b, e0, d0 := View(), mem.ept, mem.dma;
      OutsideRoot(b, k, cpu);
      if cells[k].loadable {
        ret := TakeLoadable(mem, cells[k].regions);
        TakeRootOnly(mem.config, ept0, cells[k].regions, Loadable, e0, mem.ept);
        TakeRootOnly(mem.config, dma0, cells[k].regions, LoadableDma, d0, mem.dma);
        if ret != 0 {
          if old(Separate()) {
            TakenSeparates(cells, own, mem.vtd, cells[k].regions, e0, d0, mem.ept, mem.dma);
          }
          Resume(cpu);
          return;
        }
        MarkedOk(b, k, false);
        if old(Separate()) {
          StartSeparates(cells, k, own, mem.vtd, e0, d0, mem.ept, mem.dma);
        }
        cells := Marked(cells, k, false);
      }
      Release(cells[k].cpus, Reset);
      Resume(cpu);
      assert cells == Marked(old(cells), k, false);
    }

    /** cell_set_loadable */
    method SetLoadableCell(cpu: nat, id: nat, shutdownOk: bool) returns (ret: int)
      requires Valid()
      modifies this`cells, this`stopped, this`strays, this`asked, mem
      ensures Valid() && (old(Separate()) ==> Separate())
      ensures root == old(root) && owner[..] == old(owner[..]) && numCells == old(numCells) && strays == old(strays)
      ensures !(In(cpu, root) && id != ROOT && HasId(old(cells), id) && shutdownOk) ==>
                && ret == (if !In(cpu, root) then -EPERM else if id == ROOT then -EINVAL
                           else if HasId(old(cells), id) then -EPERM else -ENOENT)
                && cells == old(cells) && mem.ept == old(mem.ept) && mem.dma == old(mem.dma) && asked == old(asked)
      ensures ManageRefusal(old(View()), SetLoadable, cpu, id, true, shutdownOk) != 0 ==>
                && ret == ManageRefusal(old(View()), SetLoadable, cpu, id, true, shutdownOk)
                && cells == old(cells) && mem.ept == old(mem.ept) && mem.dma == old(mem.dma)
                && stopped == if In(cpu, root) then old(stopped) - SetOf(root, cpu) else old(stopped)
      ensures ManageRefusal(old(View()), SetLoadable, cpu, id, true, shutdownOk) == 0 ==> exists k: nat ::
                && k < |old(cells)| && old(cells)[k].id == id
                && cells == old(cells)[k := old(cells)[k].(loadable := true)]
                && Asked(old(asked), asked, cells[k].cpus, Park)
                && stopped == old(stopped) - SetOf(root, cpu) - SetOf(cells[k].cpus, -1)
                && (old(cells)[k].loadable ==> ret == 0 && mem.ept == old(mem.ept) && mem.dma == old(mem.dma))
                && (Roomy(mem, cells[k].regions) ==> ret == 0)
                && GivesSome(mem.config, cells[k].regions, Loadable, old(mem.ept), mem.ept)
                && GivesSome(mem.config, cells[k].regions, Loadable, old(mem.dma), mem.dma)
                && (ret == 0 && !old(cells)[k].loadable ==>
                      && GivesAll(mem.config, cells[k].regions, Loadable, false, old(mem.ept), mem.ept)
                      && (mem.vtd ==> GivesAll(mem.config, cells[k].regions, Loadable, true, old(mem.dma), mem.dma)))
    {
      hide Separated;
      hide SetOf;
      hide RootOnly;
      hide GivesSome;
      hide GivesAll;
      hide Ok;
      var k;
      ret, k := Prologue(SetLoadable, cpu, id, true, shutdownOk);
      if ret != 0 {
        return;
      }
      ghost var b, e0, d0 := View(), mem.ept, mem.dma;
      OutsideRoot(b, k, cpu);
      NothingGiven(mem.config, cells[k].regions, Loadable, e0);
      NothingGiven(mem.config, cells[k].regions, Loadable, d0);
      Release(cells[k].cpus, Park);
      if !cells[k].loadable {
        cells := Marked(cells, k, true);
        ret := GiveLoadable(mem, cells[k].regions);
        MarkedOk(b, k, true);
        if old(Separate()) {
          LoadSeparates(b.cells, k, own, mem.vtd, mem.config, e0, d0, mem.ept, mem.dma);
        }
        GiveRootOnly(mem.config, ept0, cells[k].regions, Loadable, e0, mem.ept);
        GiveRootOnly(mem.config, dma0, cells[k].regions, Loadable, d0, mem.dma);
      }
      Resume(cpu);
      assert cells == Marked(old(cells), k, true);
    }

    /** cell_destroy */
    method DestroyCell(cpu: nat, id: nat, reconfigOk: bool, shutdownOk: bool) returns (ret: int, ghost clean: bool)
      requires Valid()
      modifies this`root, this`cells, this`numCells, this`stopped, this`strays, this`asked, owner, mem
      ensures Valid() && ret == ManageRefusal(old(View()), Destroy, cpu, id, reconfigOk, shutdownOk)
      ensures (old(Separate()) ==> Separate()) && strays == old(strays)
      ensures ret == if !In(cpu, old(root)) then -EPERM else if id == ROOT then -EINVAL
                     else if !HasId(old(cells), id) then -ENOENT
                     else if reconfigOk && shutdownOk then 0 else -EPERM
      ensures ret != 0 ==>
                && View() == old(View()) && mem.ept == old(mem.ept) && mem.dma == old(mem.dma) && asked == old(asked)
                && stopped == if In(cpu, root) then old(stopped) - SetOf(root, cpu) else old(stopped)
      ensures ret == 0 ==> exists k: nat ::
                && k < |old(cells)| && old(cells)[k].id == id && View() == Destroyed(old(View()), k)
                && stopped == old(stopped) - SetOf(old(root), cpu) - SetOf(old(cells)[k].cpus, -1)
                && Asked(old(asked), asked, old(cells)[k].cpus, Park)
                && Changes(old(cells)[k].regions, old(mem.ept), mem.ept)
                && Changes(old(cells)[k].regions, old(mem.dma), mem.dma)
                && (Roomy(mem, old(cells)[k].regions) ==> clean)
                && (clean ==> GivesAll(mem.config, old(cells)[k].regions, Private, false, old(mem.ept), mem.ept))
                && (clean && mem.vtd ==>
                      GivesAll(mem.config, old(cells)[k].regions, Private, true, old(mem.dma), mem.dma))
    {
      hide Separated;
      hide SetOf;
      hide Cpus;
      hide RootOnly;
      hide GivesSome;
      hide GivesAll;
      hide Changes;
      var k;
      clean := true;
      ret, k := Prologue(Destroy, cpu, id, reconfigOk, shutdownOk);
      if ret != 0 {
        return;
      }
      ghost var b, e0, d0 := View(), mem.ept, mem.dma;
      var gone := cells[k];
      OutsideRoot(b, k, cpu);
      clean := DestroyInternal(gone.cpus, gone.regions);
      GiveRootOnly(mem.config, ept0, gone.regions, Private, e0, mem.ept);
      GiveRootOnly(mem.config, dma0, gone.regions, Private, d0, mem.dma);
      GiveChanges(mem.config, gone.regions, Private, e0, mem.ept);
      GiveChanges(mem.config, gone.regions, Private, d0, mem.dma);
      if old(Separate()) {
        DestroySeparates(cells, k, own, mem.vtd, mem.config, e0, d0, mem.ept, mem.dma);
      }
      DestroyedOk(b, k);
      cells := cells[..k] + cells[k + 1..];
      numCells := numCells - 1;
      Resume(cpu);
      ResumedWith(b.root, gone.cpus, cpu, old(stopped));
      assert View() == Destroyed(b, k);
    }

    /**
     * A successful creation and the destruction of the new cell, on whose pages the root cell had what its
     * configuration says: without failures all is as it was, CPUs, cells and both maps.
     */
    method CreateDestroy(cpu: nat, config: Config, a: Attempt, reconfigOk: bool, shutdownOk: bool)
      returns (created: int, destroyed: int, ghost clean: bool)
      requires Valid() && Sane(a)
      requires forall p: nat | Covered(config.regions, Private, p) ::
                 && At(mem.ept, p) == Configured(mem.config, p, false)
                 && (mem.vtd ==> At(mem.dma, p) == Configured(mem.config, p, true))
      modifies this`root, this`cells, this`numCells, this`stopped, this`strays, this`asked, owner, mem
      ensures Valid() && (created > 0 && reconfigOk && shutdownOk ==> destroyed == 0)
      ensures created > 0 && destroyed == 0 ==> View() == old(View()) && numCells == old(numCells)
      ensures created > 0 && destroyed == 0 && (clean || Roomy(mem, config.regions)) ==>
                mem.ept == old(mem.ept) && (mem.vtd ==> mem.dma == old(mem.dma))
    {
      hide Covered;
      hide Configured;
      hide Separated;
      hide MayAdd;
      hide RootMapsOk;
      hide Ok;
      destroyed, clean := 0, false;
      ghost var b, e0, d0 := View(), mem.ept, mem.dma;
      created := Create(cpu, config, a);
      if created <= 0 {
        return;
      }
      ghost var c, e1, d1 := View(), mem.ept, mem.dma;
      ghost var cell := Cell(created, config.name, config.cpus, config.regions, false);
      assert c.cells[|b.cells|] == cell;
      LastHasId(c, created);
      destroyed, clean := DestroyCell(cpu, created, reconfigOk, shutdownOk);
      if destroyed == 0 {
        BookRestored(b, cell);
        if clean {
          MapRestored(mem.config, config.regions, Private, false, e0, e1, mem.ept);
          if mem.vtd {
            MapRestored(mem.config, config.regions, PrivateDma, true, d0, d1, mem.dma);
          }
        }
      }
    }

    // ---- Runs ----

    /** The memory of a cell that is to be created passes the test. */
    ghost predicate Apart(c: Command, live: seq<Cell>) { c.CreateIt? ==> MayAdd(live, own, c.config.regions) }

    method Execute(c: Command)
      requires Valid() && (c.CreateIt? ==> Sane(c.attempt))
      modifies this`root, this`cells, this`numCells, this`stopped, this`strays, this`asked, owner, mem
      ensures Valid() && (old(Separate()) && Apart(c, old(cells)) ==> Separate())
    {
      hide Separated;
      hide MayAdd;
      hide RootMapsOk;
      hide Ok;
      hide Changes;
      hide TakesAll;
      hide GivesAll;
      match c
      case CreateIt(cpu, config, attempt) =>
        var ret := Create(cpu, config, attempt);
      case StartIt(cpu, id, shutdownOk) =>
        var ret := StartCell(cpu, id, shutdownOk);
      case LoadIt(cpu, id, shutdownOk) =>
        var ret := SetLoadableCell(cpu, id, shutdownOk);
      case DestroyIt(cpu, id, reconfigOk, shutdownOk) =>
        ghost var clean;
        var ret;
        ret, clean := DestroyCell(cpu, id, reconfigOk, shutdownOk);
    }

    /**
     * Any sequence of commands, refused, failed and successful ones: the books stay right. If each new cell's memory
     * overlaps no cell live at that time and none of the hypervisor's pages, a guest page of the root cell leads to a
     * page of a live cell's memory only if the cell and the region are loadable; for DMA, if the region has DMA
     * access. `live` are the cells before each command and after the last.
     */
    method Serve(commands: seq<Command>) returns (ghost live: seq<seq<Cell>>)
      requires Valid() && Separate()
      requires forall i | 0 <= i < |commands| && commands[i].CreateIt? :: Sane(commands[i].attempt)
      modifies this`root, this`cells, this`numCells, this`stopped, this`strays, this`asked, owner, mem
      ensures Valid() && |live| == |commands| + 1 && live[0] == old(cells) && live[|commands|] == cells
      ensures (forall i | 0 <= i < |commands| :: Apart(commands[i], live[i])) ==>
                && Separate()
                && forall k: nat, i: nat, g: nat | k < |cells| && i < |cells[k].regions| && !cells[k].regions[i].comm ::
                     var r := cells[k].regions[i];
                     && (g in mem.ept && Covers(r, mem.ept[g].phys) ==> cells[k].loadable && r.loadable)
                     && (mem.vtd && r.dma && g in mem.dma && Covers(r, mem.dma[g].phys) ==>
                           cells[k].loadable && r.loadable)
    {
      hide Separated;
      hide RootMapsOk;
      hide Apart;
      hide Ok;
      live := [cells];
      for n := 0 to |commands|
        invariant Valid() && |live| == n + 1 && live[0] == old(cells) && live[n] == cells
        invariant (forall i | 0 <= i < n :: Apart(commands[i], live[i])) ==> Separate()
      {
        Execute(commands[n]);
        live := live + [cells];
      }
      if Separate() {
        RegionsHidden();
      }
    }

    lemma RegionsHidden()
      requires RootMapsOk() && Separate()
      ensures forall k: nat, i: nat, g: nat | k < |cells| && i < |cells[k].regions| && !cells[k].regions[i].comm ::
                var r := cells[k].regions[i];
                && (g in mem.ept && Covers(r, mem.ept[g].phys) ==> cells[k].loadable && r.loadable)
                && (mem.vtd && r.dma && g in mem.dma && Covers(r, mem.dma[g].phys) ==> cells[k].loadable && r.loadable)
    {
      RootStraight(mem.config, ept0, mem.ept, own);
      RootStraight(mem.config, dma0, mem.dma, own);
      forall k: nat, i: nat, g: nat | k < |cells| && i < |cells[k].regions| && !cells[k].regions[i].comm
        ensures var r := cells[k].regions[i];
                && (g in mem.ept && Covers(r, mem.ept[g].phys) ==> cells[k].loadable && r.loadable)
                && (mem.vtd && r.dma && g in mem.dma && Covers(r, mem.dma[g].phys) ==> cells[k].loadable && r.loadable)
      {
        var r := cells[k].regions[i];
        if g in mem.ept && Covers(r, mem.ept[g].phys) {
          IsolatedRegion(cells, Private, mem.ept, own, k, i, g);
        }
        if mem.vtd && r.dma && g in mem.dma && Covers(r, mem.dma[g].phys) {
          IsolatedRegion(cells, PrivateDma, mem.dma, own, k, i, g);
        }
      }
    }
  }

  // ---- A region without DMA access ----

  const ROOT_REGION := Region(0, 0, 8, 1, true, false, false)
  const CELL_REGION := Region(3, 3, 1, 1, false, false, false)

  /** A machine with two CPUs and eight pages, which the root cell's devices may access. */
  method SmallMachine() returns (m: Manager)
    ensures fresh(m) && fresh(m.owner) && fresh(m.mem) && m.Valid()
    ensures m.Separate() && m.mem.vtd && Roomy(m.mem, [CELL_REGION])
    ensures m.cells == [] && m.root == [true, true] && m.own == {} && m.name == "root"
    ensures At(m.mem.dma, 3) == Some(Entry(3, 1))
  {
    hide Configured;
    var config := [ROOT_REGION];
    var mem := new RootMemory(config, true, _ => 8, map[], map[]);
    var err := mem.MapConfig();
    FirstMap(config, mem.ept, false);
    FirstMap(config, mem.dma, true);
    m := new Manager(mem, "root", [true, true], {});
  }

  lemma FirstMap(config: seq<Region>, m: PageMap, dma: bool)
    requires config == [ROOT_REGION] && forall p: nat :: At(m, p) == Over(Configured(config, p, dma), None)
    ensures Straight(m, {}) && At(m, 3) == Some(Entry(3, 1))
  {
    assert config[..0] == [];
    forall g | g in m ensures m[g].phys == g {
      assert At(m, g) == Over(Configured(config, g, dma), None);
    }
    assert At(m, 3) == Over(Configured(config, 3, dma), None);
  }

  lemma Welcome(b: Book, config: Config, a: Attempt)
    requires b.root == [true, true] && b.cells == [] && b.name == "root"
    requires config == Config("cell", [false, true], [CELL_REGION])
    requires a.reconfigOk && !a.tooBig && a.aligned && a.pages && a.mapHeader == a.mapAll == a.cpuSet == a.arch == 0
    ensures Refusal(b, 0, config, a) == 0 && MayAdd(b.cells, {}, config.regions)
    ensures Covered(config.regions, Private, 3) && !Covered(config.regions, PrivateDma, 3)
  {
    assert b.name[0] == 'r' && config.name[0] == 'c';
  }

  /**
   * A region without DMA access is not closed to the root cell's devices: after all went well, page 3 belongs to the
   * new cell, the root cell's CPUs have lost it, and its devices still reach it.
   */
  method DmaLeft() returns (m: Manager)
    ensures fresh(m) && m.Valid() && m.Separate() && m.mem.vtd && |m.cells| == 1
    ensures m.cells[0].regions == [CELL_REGION] && !m.cells[0].loadable && Covers(CELL_REGION, 3)
    ensures 3 !in m.mem.ept && 3 in m.mem.dma && m.mem.dma[3].phys == 3
  {
    hide Ok;
    hide Separated;
    hide RootOnly;
    hide Straight;
    hide MayAdd;
    hide Covered;
    hide Refusal;
    hide Changes;
    m := SmallMachine();
    var config := Config("cell", [false, true], [CELL_REGION]);
    var a := Attempt(true, 0, false, 0, true, true, 0, 0, _ => 0);
    ghost var d := m.mem.dma;
    Welcome(m.View(), config, a);
    var id := m.Create(0, config, a);
    assert At(m.mem.ept, 3) == None && At(m.mem.dma, 3) == At(d, 3);
  }
}
