/** The VT-d root and context tables: a two-level structure from PCI devices to their cell's DMA page table. */
module Vtd {
  import opened Options

  const ENOMEM: int := 12
  const ERANGE: int := 34
  const ENTRIES: nat := 256

  /** A context entry; what is left in one that is not present does not matter. */
  datatype Context = Context(present: bool, table: nat, domain: nat)

  /** What the hardware finds for a device: page table and domain. */
  datatype Binding = Binding(table: nat, domain: nat)

  /**
   * Per bus the page of its context table, the context tables by their page, and the cells' root tables by cell id;
   * `domains` is the number of domain ids the hardware has.
   */
  datatype Dma = Dma(domains: nat, roots: seq<Option<nat>>, contexts: map<nat, seq<Context>>, cells: map<nat, nat>)

  predicate AnyPresent(table: seq<Context>) { exists d :: 0 <= d < |table| && table[d].present }

  /** A page of the pool that page_alloc may hand out is blank, because page_free scrubs. */
  function BlankTable(): (t: seq<Context>)
    ensures |t| == ENTRIES && !AnyPresent(t)
  {
    seq(ENTRIES, _ => Context(false, 0, 0))
  }

  // ---- The invariant ----

  /** The table of one bus: there is one if and only if a device on the bus is present. */
  predicate BusOk(m: Dma, b: nat) {
    b < |m.roots| && m.roots[b].Some? ==>
      var p := m.roots[b].value; p in m.contexts && |m.contexts[p]| == ENTRIES && AnyPresent(m.contexts[p])
  }

  predicate Buses(m: Dma) { |m.roots| == ENTRIES && forall b: nat | b < ENTRIES :: BusOk(m, b) }

  /** No two buses share a table, and every table belongs to a bus. */
  predicate Apart(m: Dma) { forall a, b | 0 <= a < b < |m.roots| && m.roots[a].Some? :: m.roots[a] != m.roots[b] }

  predicate HasBus(m: Dma, p: nat) { exists b :: 0 <= b < |m.roots| && m.roots[b] == Some(p) }

  predicate Owned(m: Dma) { forall p: nat | p in m.contexts :: HasBus(m, p) }

  /** A present entry binds its device to the page table of the cell whose id is the domain. */
  predicate EntryOk(cells: map<nat, nat>, e: Context) { e.present ==> e.domain in cells && cells[e.domain] == e.table }

  predicate TableOk(cells: map<nat, nat>, t: seq<Context>) { forall d | 0 <= d < |t| :: EntryOk(cells, t[d]) }

  predicate Bound(m: Dma) { forall p: nat | p in m.contexts :: TableOk(m.cells, m.contexts[p]) }

  predicate CellsOk(m: Dma) {
    && (forall c: nat | c in m.cells :: c < m.domains && m.cells[c] !in m.contexts)
    && (forall c: nat, e: nat | c in m.cells && e in m.cells && c != e :: m.cells[c] != m.cells[e])
  }

  predicate Inv(m: Dma) { Buses(m) && Apart(m) && Owned(m) && Bound(m) && CellsOk(m) }

  /** The pages this structure holds. */
  function Pages(m: Dma): set<nat> { m.contexts.Keys + m.cells.Values }

  /** What the hardware finds for bus b, device and function d. */
  function Find(m: Dma, b: nat, d: nat): Option<Binding> {
    if b < |m.roots| && m.roots[b].Some? && m.roots[b].value in m.contexts && d < |m.contexts[m.roots[b].value]| then
      var e := m.contexts[m.roots[b].value][d];
      if e.present then Some(Binding(e.table, e.domain)) else None
    else None
  }

  /** A bus has a context table if and only if some device on it is bound. */
  lemma TableIffDevice(m: Dma, b: nat)
    requires Inv(m) && b < ENTRIES
    ensures m.roots[b].Some? <==> exists d: nat :: d < ENTRIES && Find(m, b, d).Some?
  {
    assert BusOk(m, b);
    if m.roots[b].Some? {
      var t := m.contexts[m.roots[b].value];
      var d :| 0 <= d < |t| && t[d].present;
      assert Find(m, b, d).Some?;
    }
  }

  lemma FoundIsBound(m: Dma, b: nat, d: nat)
    requires Inv(m) && Find(m, b, d).Some?
    ensures var f := Find(m, b, d).value; f.domain in m.cells && m.cells[f.domain] == f.table && f.domain < m.domains
  {
    var t := m.contexts[m.roots[b].value];
    assert TableOk(m.cells, t);
    assert EntryOk(m.cells, t[d]);
  }

  // ---- Adding and removing devices ----

  function TableOf(m: Dma, b: nat, page: nat): nat
    requires b < |m.roots|
  {
    if m.roots[b].Some? then m.roots[b].value else page
  }

  function Added(m: Dma, b: nat, d: nat, page: nat, id: nat): Dma
    requires Inv(m) && b < ENTRIES && d < ENTRIES && id in m.cells
  {
    assert BusOk(m, b);
    var p := TableOf(m, b, page);
    var t := if m.roots[b].Some? then m.contexts[p] else BlankTable();
    m.(roots := m.roots[b := Some(p)], contexts := m.contexts[p := t[d := Context(true, m.cells[id], id)]])
  }

  function Dropped(m: Dma, b: nat, d: nat): Dma
    requires Inv(m) && b < ENTRIES && d < ENTRIES && m.roots[b].Some?
  {
    assert BusOk(m, b);
    var p := m.roots[b].value;
    var t := m.contexts[p][d := m.contexts[p][d].(present := false)];
    if AnyPresent(t) then m.(contexts := m.contexts[p := t])
    else m.(roots := m.roots[b := None], contexts := m.contexts - {p})
  }

  lemma AddedBuses(m: Dma, b: nat, d: nat, page: nat, id: nat)
    requires Inv(m) && b < ENTRIES && d < ENTRIES && id in m.cells && (m.roots[b].None? ==> page !in Pages(m))
    ensures var r := Added(m, b, d, page, id); Buses(r) && Apart(r)
  {
    var r := Added(m, b, d, page, id);
    assert BusOk(m, b);
    assert r.contexts[r.roots[b].value][d].present;
    forall x: nat | x < ENTRIES ensures BusOk(r, x) {
      assert BusOk(m, x);
    }
    assert forall x: nat | x < ENTRIES && m.roots[x].Some? :: BusOk(m, x);
  }

  lemma AddedRest(m: Dma, b: nat, d: nat, page: nat, id: nat)
    requires Inv(m) && b < ENTRIES && d < ENTRIES && id in m.cells && (m.roots[b].None? ==> page !in Pages(m))
    ensures var r := Added(m, b, d, page, id); Owned(r) && Bound(r) && CellsOk(r)
  {
    var r := Added(m, b, d, page, id);
    assert BusOk(m, b);
    forall p: nat | p in r.contexts ensures HasBus(r, p) {
      if p == r.roots[b].value {
        assert r.roots[b] == Some(p);
      } else {
        assert HasBus(m, p);
        var x :| 0 <= x < |m.roots| && m.roots[x] == Some(p);
        assert r.roots[x] == Some(p);
      }
    }
    forall p: nat | p in r.contexts ensures TableOk(r.cells, r.contexts[p]) {
      assert p in m.contexts ==> TableOk(m.cells, m.contexts[p]);
    }
  }

  lemma AddedFinds(m: Dma, b: nat, d: nat, page: nat, id: nat, x: nat, y: nat)
    requires Inv(m) && b < ENTRIES && d < ENTRIES && id in m.cells && (m.roots[b].None? ==> page !in Pages(m))
    ensures Find(Added(m, b, d, page, id), x, y) ==
            if x == b && y == d then Some(Binding(m.cells[id], id)) else Find(m, x, y)
  {
    assert BusOk(m, b);
    if x < ENTRIES {
      assert BusOk(m, x);
    }
  }

  lemma DroppedBuses(m: Dma, b: nat, d: nat)
    requires Inv(m) && b < ENTRIES && d < ENTRIES && m.roots[b].Some?
    ensures var r := Dropped(m, b, d); Buses(r) && Apart(r)
  {
    var r := Dropped(m, b, d);
    forall x: nat | x < ENTRIES ensures BusOk(r, x) {
      assert BusOk(m, x);
    }
  }

  lemma DroppedRest(m: Dma, b: nat, d: nat)
    requires Inv(m) && b < ENTRIES && d < ENTRIES && m.roots[b].Some?
    ensures var r := Dropped(m, b, d); Owned(r) && Bound(r) && CellsOk(r)
  {
    var r := Dropped(m, b, d);
    assert BusOk(m, b);
    forall p: nat | p in r.contexts ensures HasBus(r, p) && TableOk(r.cells, r.contexts[p]) {
      assert HasBus(m, p);
      var x :| 0 <= x < |m.roots| && m.roots[x] == Some(p);
      assert r.roots[x] == Some(p);
      assert TableOk(m.cells, m.contexts[p]);
      assert forall e: nat | e < |m.contexts[p]| :: EntryOk(m.cells, m.contexts[p][e]);
    }
  }

  lemma DroppedFinds(m: Dma, b: nat, d: nat, x: nat, y: nat)
    requires Inv(m) && b < ENTRIES && d < ENTRIES && m.roots[b].Some?
    ensures Find(Dropped(m, b, d), x, y) == if x == b && y == d then None else Find(m, x, y)
  {
    assert BusOk(m, b);
    if x == b && y < ENTRIES && y != d {
      var t := m.contexts[m.roots[b].value];
      assert t[d := t[d].(present := false)][y] == t[y];
    }
    if x < ENTRIES {
      assert BusOk(m, x);
    }
  }

  /** The upper word of a context entry, which the code computes from a 32-bit cell id. */
  function UpperWord(agaw: bv32, id: bv32): bv32 { agaw | (id << 8) }

  /** The hardware reads the cell id back as domain id if and only if the id has sixteen bits. */
  lemma DomainReadsBack(agaw: bv32, id: bv32)
    requires agaw == 1 || agaw == 2
    ensures (UpperWord(agaw, id) >> 8) & 0xffff == id <==> id < 0x1_0000
    ensures UpperWord(agaw, id) & 7 == agaw
  {
    DomainBits(agaw, id);
  }

  lemma DomainBits(agaw: bv32, id: bv32)
    requires agaw < 8
    ensures ((agaw | (id << 8)) >> 8) & 0xffff == id & 0xffff
  {
  }

  class Tables {
    /** 0 units means that there is no VT-d hardware, which the code accepts. */
    const units: nat
    const domains: nat
    const roots: array<Option<nat>>
    var contexts: map<nat, seq<Context>>
    var cells: map<nat, nat>

    function View(): Dma
      reads this, roots
    {
      Dma(domains, roots[..], contexts, cells)
    }

    ghost predicate Valid()
      reads this, roots
    {
      Inv(View())
    }

    constructor (units: nat, domains: nat)
      ensures Valid() && fresh(roots) && this.units == units
      ensures View() == Dma(domains, seq(ENTRIES, _ => None), map[], map[])
    {
      this.units := units;
      this.domains := domains;
      roots := new Option<nat>[ENTRIES](_ => None);
      contexts := map[];
      cells := map[];
      new;
      assert roots[..] == seq(ENTRIES, _ => None);
    }

    /** vtd_cell_init; page is what page_alloc returns. */
    method CellInit(id: nat, page: Option<nat>) returns (ret: int)
      requires Valid() && id !in cells && (page.Some? ==> page.value !in Pages(View()))
      modifies this`cells
      ensures Valid()
      ensures ret == if units == 0 then 0 else if id >= domains then -ERANGE else if page.None? then -ENOMEM else 0
      ensures View() ==
              if units > 0 && ret == 0 then old(View()).(cells := old(cells)[id := page.value]) else old(View())
    {
      if units == 0 {
        return 0;
      }
      if id >= domains {
        return -ERANGE;
      }
      if page.None? {
        return -ENOMEM;
      }
      CellAdded(View(), id, page.value);
      cells := cells[id := page.value];
      return 0;
    }

    /** vtd_cell_exit, after all devices of the cell were removed. */
    method CellExit(id: nat)
      requires Valid() && (units > 0 ==> id in cells)
      requires forall b: nat, d: nat | Find(View(), b, d).Some? :: Find(View(), b, d).value.domain != id
      modifies this`cells
      ensures Valid() && View() == if units > 0 then old(View()).(cells := old(cells) - {id}) else old(View())
    {
      if units > 0 {
        CellRemoved(View(), id);
        cells := cells - {id};
      }
    }

    /** vtd_add_pci_device; page is what page_alloc returns if it is called. */
    method AddDevice(id: nat, b: nat, d: nat, page: Option<nat>) returns (ret: int)
      requires Valid() && b < ENTRIES && d < ENTRIES && (units > 0 ==> id in cells)
      requires page.Some? ==> page.value !in Pages(View())
      modifies this`contexts, roots
      ensures Valid()
      ensures ret == if units > 0 && old(roots[b]).None? && page.None? then -ENOMEM else 0
      ensures ret != 0 || units == 0 ==> View() == old(View())
      ensures ret == 0 && units > 0 ==>
                && (forall x: nat, y: nat ::
                      Find(View(), x, y) ==
                      if x == b && y == d then Some(Binding(cells[id], id)) else Find(old(View()), x, y))
                && contexts.Keys == old(contexts.Keys) + if old(roots[b]).None? then {page.value} else {}
    {
      hide Inv;
      hide Pages;
      if units == 0 {
        return 0;
      }
      ghost var m := View();
      RootIn(m, b);
      var p;
      if roots[b].Some? {
        p := roots[b].value;
      } else {
        if page.None? {
          return -ENOMEM;
        }
        p := page.value;
        contexts := contexts[p := BlankTable()];
        roots[b] := Some(p);
      }
      contexts := contexts[p := contexts[p][d := Context(true, cells[id], id)]];
      ghost var given := if page.Some? then page.value else 0;
      assert View() == Added(m, b, d, given, id);
      AddedOk(m, b, d, given, id);
      return 0;
    }

    /** vtd_remove_pci_device */
    method RemoveDevice(b: nat, d: nat)
      requires Valid() && b < ENTRIES && d < ENTRIES && (units > 0 ==> roots[b].Some?)
      modifies this`contexts, roots
      ensures Valid() && (units == 0 ==> View() == old(View()))
      ensures units > 0 ==>
                && (forall x: nat, y: nat ::
                      Find(View(), x, y) == if x == b && y == d then None else Find(old(View()), x, y))
                && contexts.Keys == old(contexts.Keys) - if roots[b].None? then {old(roots[b]).value} else {}
    {
      hide Inv;
      if units == 0 {
        return;
      }
      ghost var m := View();
      RootIn(m, b);
      DroppedOk(m, b, d);
      var p := roots[b].value;
      contexts := contexts[p := contexts[p][d := contexts[p][d].(present := false)]];
      for n := 0 to ENTRIES
        invariant forall i | 0 <= i < n :: !contexts[p][i].present
      {
        if contexts[p][n].present {
          assert View() == Dropped(m, b, d);
          return;
        }
      }
      roots[b] := None;
      contexts := contexts - {p};
      assert View() == Dropped(m, b, d);
    }
  }

  lemma RootIn(m: Dma, b: nat)
    requires Inv(m) && b < ENTRIES
    ensures |m.roots| == ENTRIES
    ensures m.roots[b].Some? ==> m.roots[b].value in m.contexts && |m.contexts[m.roots[b].value]| == ENTRIES
  {
    assert BusOk(m, b);
  }

  lemma AddedOk(m: Dma, b: nat, d: nat, page: nat, id: nat)
    requires Inv(m) && b < ENTRIES && d < ENTRIES && id in m.cells && (m.roots[b].None? ==> page !in Pages(m))
    ensures Inv(Added(m, b, d, page, id))
    ensures forall x: nat, y: nat ::
              Find(Added(m, b, d, page, id), x, y) ==
              if x == b && y == d then Some(Binding(m.cells[id], id)) else Find(m, x, y)
  {
    AddedBuses(m, b, d, page, id);
    AddedRest(m, b, d, page, id);
    forall x: nat, y: nat ensures Find(Added(m, b, d, page, id), x, y) ==
                                  if x == b && y == d then Some(Binding(m.cells[id], id)) else Find(m, x, y) {
      AddedFinds(m, b, d, page, id, x, y);
    }
  }

  lemma DroppedOk(m: Dma, b: nat, d: nat)
    requires Inv(m) && b < ENTRIES && d < ENTRIES && m.roots[b].Some?
    ensures Inv(Dropped(m, b, d))
    ensures forall x: nat, y: nat :: Find(Dropped(m, b, d), x, y) == if x == b && y == d then None else Find(m, x, y)
  {
    DroppedBuses(m, b, d);
    DroppedRest(m, b, d);
    forall x: nat, y: nat ensures Find(Dropped(m, b, d), x, y) == if x == b && y == d then None else Find(m, x, y) {
      DroppedFinds(m, b, d, x, y);
    }
  }

  lemma CellAdded(m: Dma, id: nat, page: nat)
    requires Inv(m) && id !in m.cells && id < m.domains && page !in Pages(m)
    ensures Inv(m.(cells := m.cells[id := page]))
  {
    var r := m.(cells := m.cells[id := page]);
    forall b: nat | b < ENTRIES ensures BusOk(r, b) {
      assert BusOk(m, b);
    }
    forall p: nat | p in r.contexts ensures HasBus(r, p) && TableOk(r.cells, r.contexts[p]) {
      assert HasBus(m, p) && TableOk(m.cells, m.contexts[p]);
    }
    assert forall c: nat | c in m.cells :: m.cells[c] in m.cells.Values;
  }

  lemma CellRemoved(m: Dma, id: nat)
    requires Inv(m) && id in m.cells
    requires forall b: nat, d: nat | Find(m, b, d).Some? :: Find(m, b, d).value.domain != id
    ensures Inv(m.(cells := m.cells - {id}))
  {
    var r := m.(cells := m.cells - {id});
    forall b: nat | b < ENTRIES ensures BusOk(r, b) {
      assert BusOk(m, b);
    }
    forall p: nat | p in r.contexts ensures HasBus(r, p) && TableOk(r.cells, r.contexts[p]) {
      assert HasBus(m, p) && TableOk(m.cells, m.contexts[p]);
      var b :| 0 <= b < |m.roots| && m.roots[b] == Some(p);
      forall d | 0 <= d < |m.contexts[p]| ensures EntryOk(r.cells, m.contexts[p][d]) {
        assert EntryOk(m.cells, m.contexts[p][d]);
        assert m.contexts[p][d].present ==> Find(m, b, d).Some?;
      }
    }
  }
}
