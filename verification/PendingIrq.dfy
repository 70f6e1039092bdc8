/**
 * The queue of virtual interrupts that wait for a list register: a doubly linked list through the slots of an array,
 * sorted by slot. Pointers are slot numbers, NULL is -1.
 */
module PendingIrq {

  const NULL: int := -1
  const ENOMEM: int := 12
  const EBUSY: int := 16
  const EINVAL: int := 22

  /** What an entry says, and its two pointers. */
  datatype Irq = Irq(virtId: nat, hw: bool, phys: nat)
  datatype Slot = Slot(irq: Irq, next: int, prev: int)

  /** first_pending and the slots. */
  datatype Queue = Queue(first: int, slots: seq<Slot>)

  // ---- The list as a set of slots ----

  /** n is the slot after s among the live ones, or NULL if there is none. */
  ghost predicate IsNext(live: set<nat>, s: int, n: int) {
    if n < 0 then n == NULL && forall t: nat | t in live :: t <= s
    else n in live && n > s && forall t: nat | t in live :: t <= s || t >= n
  }

  ghost predicate IsPrev(live: set<nat>, s: int, p: int) {
    if p < 0 then p == NULL && forall t: nat | t in live :: t >= s
    else p in live && p < s && forall t: nat | t in live :: t >= s || t <= p
  }

  ghost predicate LinkedAt(q: Queue, live: set<nat>, s: nat) {
    && s < |q.slots| && IsNext(live, s, q.slots[s].next) && IsPrev(live, s, q.slots[s].prev)
  }

  /** The live slots are linked in ascending order, both ways. */
  ghost predicate Linked(q: Queue, live: set<nat>) {
    IsNext(live, -1, q.first) && forall s: nat {:trigger LinkedAt(q, live, s)} | s in live :: LinkedAt(q, live, s)
  }

  /** The slots a walk along the next pointers meets. */
  function Walk(slots: seq<Slot>, s: int): seq<nat>
    decreases |slots| - s
  {
    if !(0 <= s < |slots|) then []
    else [s] + if slots[s].next > s then Walk(slots, slots[s].next) else []
  }

  lemma At(q: Queue, live: set<nat>, s: nat)
    requires Linked(q, live) && s in live
    ensures LinkedAt(q, live, s)
  {
    assert LinkedAt(q, live, s);
  }

  lemma {:induction false} WalkFrom(q: Queue, live: set<nat>, s: int, x: nat)
    requires Linked(q, live) && (s == NULL || (s >= 0 && s in live))
    ensures x in Walk(q.slots, s) <==> s != NULL && x in live && x >= s
    decreases |q.slots| - s
  {
    hide Linked;
    if s != NULL {
      At(q, live, s);
      var n := q.slots[s].next;
      if n != NULL {
        assert Walk(q.slots, s) == [s] + Walk(q.slots, n);
        WalkFrom(q, live, n, x);
      } else {
        assert Walk(q.slots, s) == [s];
      }
    }
  }

  lemma {:induction false} WalkAscends(q: Queue, live: set<nat>, s: int, i: nat, j: nat)
    requires Linked(q, live) && (s == NULL || (s >= 0 && s in live)) && i < j < |Walk(q.slots, s)|
    ensures Walk(q.slots, s)[i] < Walk(q.slots, s)[j]
    decreases |q.slots| - s
  {
    assert LinkedAt(q, live, s);
    var n := q.slots[s].next;
    if i > 0 {
      WalkAscends(q, live, n, i - 1, j - 1);
    } else {
      WalkFrom(q, live, n, Walk(q.slots, n)[j - 1]);
    }
  }

  /** Walking the list from its head meets exactly the live slots, in strictly ascending order. */
  lemma WalkIsSorted(q: Queue, live: set<nat>)
    requires Linked(q, live)
    ensures forall x: nat :: x in Walk(q.slots, q.first) <==> x in live
    ensures var w := Walk(q.slots, q.first); forall i, j | 0 <= i < j < |w| :: w[i] < w[j]
  {
    forall x: nat ensures x in Walk(q.slots, q.first) <==> x in live {
      WalkFrom(q, live, q.first, x);
    }
    var w := Walk(q.slots, q.first);
    forall i, j | 0 <= i < j < |w| ensures w[i] < w[j] {
      WalkAscends(q, live, q.first, i, j);
    }
  }

  // ---- Inserting and removing ----

  /** The slot with its payload and pointers, not yet reachable. */
  function Prepared(q: Queue, x: nat, p: int, irq: Irq): Queue
    requires x < |q.slots| && -1 <= p < |q.slots|
  {
    q.(slots := q.slots[x := Slot(irq, if p == NULL then q.first else q.slots[p].next, p)])
  }

  /** The prepared slot made reachable, and its successor told about it. */
  function Entered(q: Queue, x: nat): Queue
    requires x < |q.slots| && -1 <= q.slots[x].prev < |q.slots| && -1 <= q.slots[x].next < |q.slots|
  {
    var p, n := q.slots[x].prev, q.slots[x].next;
    var first := if p == NULL then x else q.first;
    var mid := if p == NULL then q.slots else q.slots[p := q.slots[p].(next := x)];
    Queue(first, if n == NULL then mid else mid[n := mid[n].(prev := x)])
  }

  function Removed(q: Queue, x: nat): Queue
    requires x < |q.slots| && -1 <= q.slots[x].prev < |q.slots| && -1 <= q.slots[x].next < |q.slots|
  {
    var p, n := q.slots[x].prev, q.slots[x].next;
    var first := if q.first == x then n else q.first;
    var mid := if p == NULL then q.slots else q.slots[p := q.slots[p].(next := n)];
    Queue(first, if n == NULL then mid else mid[n := mid[n].(prev := p)])
  }

  /** Entries other than x say what they said. */
  predicate PayloadKept(q: Queue, r: Queue, x: nat) {
    |r.slots| == |q.slots| && forall i | 0 <= i < |q.slots| && i != x :: r.slots[i].irq == q.slots[i].irq
  }

  lemma PrepareKeeps(q: Queue, live: set<nat>, x: nat, p: int, irq: Irq)
    requires Linked(q, live) && x < |q.slots| && x !in live && IsPrev(live, x, p)
    ensures -1 <= p < |q.slots|
    ensures var r := Prepared(q, x, p, irq);
            && Linked(r, live) && PayloadKept(q, r, x)
            && r.slots[x].irq == irq && LinkedAt(r, live, x) && r.slots[x].prev == p
  {
    if p != NULL {
      assert LinkedAt(q, live, p);
    }
    var r := Prepared(q, x, p, irq);
    forall s: nat | s in live ensures LinkedAt(r, live, s) {
      assert LinkedAt(q, live, s);
    }
  }

  /** What a new slot x changes for its neighbours: the slot after s is x if s is just before x. */
  lemma NextWith(live: set<nat>, x: nat, s: int, n: int)
    requires x !in live && IsNext(live, s, n)
    ensures IsNext(live + {x}, s, if s < x && (n == NULL || x < n) then x else n)
  {
  }

  lemma PrevWith(live: set<nat>, x: nat, s: int, p: int)
    requires x !in live && IsPrev(live, s, p)
    ensures IsPrev(live + {x}, s, if x < s && (p == NULL || p < x) then x else p)
  {
  }

  lemma EnterAt(q: Queue, live: set<nat>, x: nat, s: nat)
    requires x !in live && LinkedAt(q, live, x) && s in live && LinkedAt(q, live, s)
    requires -1 <= q.slots[x].prev < |q.slots| && -1 <= q.slots[x].next < |q.slots|
    ensures LinkedAt(Entered(q, x), live + {x}, s)
  {
    var p, n := q.slots[x].prev, q.slots[x].next;
    NextWith(live, x, s, q.slots[s].next);
    PrevWith(live, x, s, q.slots[s].prev);
    var r := Entered(q, x);
    assert r.slots[s].next == if s == p then x else q.slots[s].next;
    assert r.slots[s].prev == if s == n then x else q.slots[s].prev;
  }

  lemma EnterNew(q: Queue, live: set<nat>, x: nat)
    requires x !in live && LinkedAt(q, live, x)
    requires -1 <= q.slots[x].prev < |q.slots| && -1 <= q.slots[x].next < |q.slots|
    ensures LinkedAt(Entered(q, x), live + {x}, x)
  {
    NextWith(live, x, x, q.slots[x].next);
    PrevWith(live, x, x, q.slots[x].prev);
  }

  lemma NeighboursIn(q: Queue, live: set<nat>, x: nat)
    requires Linked(q, live) && LinkedAt(q, live, x)
    ensures -1 <= q.slots[x].prev < |q.slots| && -1 <= q.slots[x].next < |q.slots|
  {
    var p, n := q.slots[x].prev, q.slots[x].next;
    if p != NULL { At(q, live, p); }
    if n != NULL { At(q, live, n); }
  }

  lemma EnterKeeps(q: Queue, live: set<nat>, x: nat)
    requires Linked(q, live) && x !in live && LinkedAt(q, live, x)
    ensures -1 <= q.slots[x].prev < |q.slots| && -1 <= q.slots[x].next < |q.slots|
    ensures var r := Entered(q, x);
            Linked(r, live + {x}) && PayloadKept(q, r, x) && r.slots[x].irq == q.slots[x].irq
  {
    NeighboursIn(q, live, x);
    EnterFirst(q, live, x);
    hide IsNext;
    hide IsPrev;
    hide LinkedAt;
    var r := Entered(q, x);
    forall s: nat | s in live + {x} ensures LinkedAt(r, live + {x}, s) {
      if s != x {
        At(q, live, s);
        EnterAt(q, live, x, s);
      } else {
        EnterNew(q, live, x);
      }
    }
  }

  lemma EnterFirst(q: Queue, live: set<nat>, x: nat)
    requires Linked(q, live) && x !in live && LinkedAt(q, live, x)
    requires -1 <= q.slots[x].prev < |q.slots| && -1 <= q.slots[x].next < |q.slots|
    ensures IsNext(live + {x}, -1, Entered(q, x).first)
  {
    NextWith(live, x, -1, q.first);
  }

  /** Without slot x, whoever pointed to it points past it. */
  lemma NextWithout(live: set<nat>, x: nat, s: int, n: int, after: int)
    requires x in live && IsNext(live, s, n) && IsNext(live, x, after)
    ensures IsNext(live - {x}, s, if n == x then after else n)
  {
  }

  lemma PrevWithout(live: set<nat>, x: nat, s: int, p: int, before: int)
    requires x in live && IsPrev(live, s, p) && IsPrev(live, x, before)
    ensures IsPrev(live - {x}, s, if p == x then before else p)
  {
  }

  lemma RemoveAt(q: Queue, live: set<nat>, x: nat, s: nat)
    requires x in live && LinkedAt(q, live, x) && s in live && s != x && LinkedAt(q, live, s)
    requires -1 <= q.slots[x].prev < |q.slots| && -1 <= q.slots[x].next < |q.slots|
    ensures LinkedAt(Removed(q, x), live - {x}, s)
  {
    var p, n := q.slots[x].prev, q.slots[x].next;
    NextWithout(live, x, s, q.slots[s].next, n);
    PrevWithout(live, x, s, q.slots[s].prev, p);
    var r := Removed(q, x);
    assert r.slots[s].next == if q.slots[s].next == x then n else q.slots[s].next;
    assert r.slots[s].prev == if q.slots[s].prev == x then p else q.slots[s].prev;
  }

  lemma RemoveFirst(q: Queue, live: set<nat>, x: nat)
    requires Linked(q, live) && x in live && LinkedAt(q, live, x)
    requires -1 <= q.slots[x].prev < |q.slots| && -1 <= q.slots[x].next < |q.slots|
    ensures IsNext(live - {x}, -1, Removed(q, x).first)
  {
    NextWithout(live, x, -1, q.first, q.slots[x].next);
  }

  lemma RemoveKeeps(q: Queue, live: set<nat>, x: nat)
    requires Linked(q, live) && x in live
    ensures x < |q.slots| && -1 <= q.slots[x].prev < |q.slots| && -1 <= q.slots[x].next < |q.slots|
    ensures var r := Removed(q, x);
            Linked(r, live - {x}) && PayloadKept(q, r, x) && r.slots[x] == q.slots[x]
  {
    At(q, live, x);
    NeighboursIn(q, live, x);
    RemoveFirst(q, live, x);
    RemovedSlot(q, live, x);
    hide IsNext;
    hide IsPrev;
    hide LinkedAt;
    var r := Removed(q, x);
    forall s: nat | s in live - {x} ensures LinkedAt(r, live - {x}, s) {
      At(q, live, s);
      RemoveAt(q, live, x, s);
    }
  }

  lemma RemovedSlot(q: Queue, live: set<nat>, x: nat)
    requires LinkedAt(q, live, x)
    requires -1 <= q.slots[x].prev < |q.slots| && -1 <= q.slots[x].next < |q.slots|
    ensures Removed(q, x).slots[x] == q.slots[x]
  {
  }

  lemma HeadIs(q: Queue, live: set<nat>)
    requires Linked(q, live)
    ensures q.first == NULL <==> live == {}
    ensures q.first != NULL ==> q.first >= 0 && q.first in live && q.first < |q.slots|
  {
    if q.first != NULL {
      assert LinkedAt(q, live, q.first);
    }
  }

  /** Without the head, its successor is the head. */
  lemma RemoveHead(q: Queue, live: set<nat>, x: nat)
    requires Linked(q, live) && x in live && q.first == x
    ensures x < |q.slots| && -1 <= q.slots[x].prev < |q.slots| && -1 <= q.slots[x].next < |q.slots|
    ensures Removed(q, x).first == q.slots[x].next && (q.slots[x].next == NULL || q.slots[x].next > x)
  {
    RemoveKeeps(q, live, x);
    assert LinkedAt(q, live, x);
  }

  // ---- List registers ----

  /** A list register; its virtual id field has ten bits. */
  datatype Lr = Free | Used(irq: Irq)

  const IDS: nat := 0x400

  function VirtField(irq: Irq): nat { irq.virtId % IDS }

  /** Some register in use holds the virtual id. */
  predicate Holds(lrs: seq<Lr>, id: nat) {
    exists i :: 0 <= i < |lrs| && lrs[i].Used? && VirtField(lrs[i].irq) == id % IDS
  }

  /** What gic_inject_irq takes for a duplicate: it compares the field with the whole id. */
  predicate Duplicate(lrs: seq<Lr>, id: nat) {
    exists i :: 0 <= i < |lrs| && lrs[i].Used? && VirtField(lrs[i].irq) == id
  }

  function FirstFree(lrs: seq<Lr>): (i: int)
    ensures -1 <= i < |lrs|
    ensures i >= 0 ==> lrs[i].Free? && forall j | 0 <= j < i :: lrs[j].Used?
    ensures i == -1 ==> forall j | 0 <= j < |lrs| :: lrs[j].Used?
  {
    if lrs == [] then -1
    else
      var k := |lrs| - 1;
      var i := FirstFree(lrs[..k]);
      if i >= 0 then i else if lrs[k].Free? then k else -1
  }

  /** What gic_inject_irq returns and leaves in the registers. */
  function Inject(lrs: seq<Lr>, irq: Irq): (r: (int, seq<Lr>))
    ensures |r.1| == |lrs|
  {
    if Duplicate(lrs, irq.virtId) then (-EINVAL, lrs)
    else if FirstFree(lrs) == -1 then (-EBUSY, lrs)
    else (0, lrs[FirstFree(lrs) := Used(irq)])
  }

  /** No two registers in use hold the same virtual id. */
  predicate Unique(lrs: seq<Lr>) {
    forall i, j | 0 <= i < j < |lrs| && lrs[i].Used? && lrs[j].Used? :: VirtField(lrs[i].irq) != VirtField(lrs[j].irq)
  }

  /** An interrupt that is not refused for want of space is in a register afterwards, and no other register changes. */
  lemma InjectHolds(lrs: seq<Lr>, irq: Irq)
    ensures var (ret, after) := Inject(lrs, irq);
            && (ret != -EBUSY ==> Holds(after, irq.virtId))
            && (ret == -EBUSY ==> forall i | 0 <= i < |lrs| :: lrs[i].Used?)
            && (forall i | 0 <= i < |lrs| && lrs[i].Used? :: after[i] == lrs[i])
            && (forall id: nat :: Holds(lrs, id) ==> Holds(after, id))
  {
    var (ret, after) := Inject(lrs, irq);
    if ret == 0 {
      assert after[FirstFree(lrs)] == Used(irq);
    }
    forall id: nat | Holds(lrs, id) ensures Holds(after, id) {
      var i :| 0 <= i < |lrs| && lrs[i].Used? && VirtField(lrs[i].irq) == id % IDS;
      assert after[i] == lrs[i];
    }
  }

  /**
   * Injection keeps the ids unique if and only if the id fits its field, or no register holds what would be left of it.
   */
  lemma InjectUniqueIff(lrs: seq<Lr>, irq: Irq)
    requires Unique(lrs) && Inject(lrs, irq).0 == 0
    ensures Unique(Inject(lrs, irq).1) <==> irq.virtId < IDS || !Holds(lrs, irq.virtId)
  {
    var f, after := FirstFree(lrs), Inject(lrs, irq).1;
    if Holds(lrs, irq.virtId) {
      var i :| 0 <= i < |lrs| && lrs[i].Used? && VirtField(lrs[i].irq) == irq.virtId % IDS;
      assert i != f && after[i] == lrs[i] && VirtField(after[f].irq) == VirtField(after[i].irq);
    }
  }

  /** The word gic_inject_irq writes: pending, and for a hardware interrupt also its physical id. */
  function LrWord(virt: bv32, hw: bool, phys: bv32): bv32 {
    if hw then virt | 0x1000_0000 | 0x8000_0000 | (phys << 10) else virt | 0x1000_0000
  }

  /** The virtual id is read back if and only if it has ten bits; then so are the state and the physical id. */
  lemma LrReadsBack(virt: bv32, hw: bool, phys: bv32)
    ensures LrWord(virt, hw, phys) & 0x3ff == virt <==> virt < 0x400
    ensures virt < 0x400 && phys < 0x400 && hw ==>
              LrWord(virt, hw, phys) >> 31 == 1 && (LrWord(virt, hw, phys) >> 10) & 0x3ff == phys
    ensures virt < 0x400 && !hw ==> LrWord(virt, hw, phys) >> 10 == 0x4_0000
  {
    LrLowBits(virt, phys);
  }

  lemma LrLowBits(virt: bv32, phys: bv32)
    ensures (virt | 0x1000_0000 | 0x8000_0000 | (phys << 10)) & 0x3ff == virt & 0x3ff
    ensures (virt | 0x1000_0000) & 0x3ff == virt & 0x3ff
  {
  }

  /** gic_inject_irq; `uie` says that it enables the maintenance interrupt, which comes once registers are free. */
  method GicInject(lrs: array<Lr>, irq: Irq) returns (ret: int, uie: bool)
    modifies lrs
    ensures (ret, lrs[..]) == Inject(old(lrs[..]), irq) && (uie <==> ret == -EBUSY)
    ensures ret == 0 || ((ret == -EINVAL || ret == -EBUSY) && lrs[..] == old(lrs[..]))
    ensures ret == -EINVAL <==>
            exists i :: 0 <= i < lrs.Length && old(lrs[i]).Used? && old(lrs[i]).irq.virtId % 0x400 == irq.virtId
    ensures ret == 0 ==>
              exists f :: && 0 <= f < lrs.Length && old(lrs[f]).Free? && lrs[..] == old(lrs[..])[f := Used(irq)]
                          && forall i | 0 <= i < f :: old(lrs[i]).Used?
    ensures ret == -EBUSY ==> forall i | 0 <= i < lrs.Length :: old(lrs[i]).Used?
  {
    var firstFree := -1;
    for i := 0 to lrs.Length
      invariant lrs[..] == old(lrs[..])
      invariant firstFree == FirstFree(lrs[..i])
      invariant !Duplicate(lrs[..i], irq.virtId)
    {
      assert lrs[..i + 1] == lrs[..i] + [lrs[i]];
      if lrs[i].Free? {
        if firstFree == -1 {
          firstFree := i;
        }
      } else if VirtField(lrs[i].irq) == irq.virtId {
        assert lrs[..][i] == lrs[i];
        return -EINVAL, false;
      }
    }
    assert lrs[..lrs.Length] == lrs[..];
    if firstFree == -1 {
      return -EBUSY, true;
    }
    lrs[firstFree] := Used(irq);
    return 0, false;
  }

  class PendingQueue {
    const slots: array<Slot>
    var first: int
    /** Whether the maintenance interrupt is enabled. */
    var uie: bool
    ghost var live: set<nat>

    ghost function View(): Queue
      reads this, slots
    {
      Queue(first, slots[..])
    }

    ghost predicate Valid()
      reads this, slots
    {
      Linked(View(), live) && forall s: nat | s in live :: s < slots.Length
    }

    /** irqchip_init_pending */
    constructor (max: nat)
      ensures Valid() && fresh(slots) && slots.Length == max && live == {} && first == NULL
    {
      slots := new Slot[max](_ => Slot(Irq(0, false, 0), NULL, NULL));
      first, uie := NULL, false;
      live := {};
    }

    /** get_pending_slot: the least free slot with its predecessor, or NULL if all are used. */
    method GetPendingSlot() returns (slot: int, prev: int)
      requires Valid()
      ensures slot == NULL || 0 <= slot < slots.Length
      ensures slot == NULL ==> forall i: nat | i < slots.Length :: i in live
      ensures slot != NULL ==> slot !in live && (forall i: nat | i < slot :: i in live) && IsPrev(live, slot, prev)
    {
      var pending := first;
      prev := NULL;
      for i := 0 to slots.Length
        invariant forall j: nat | j < i :: j in live
        invariant IsNext(live, i - 1, pending) && IsPrev(live, i, prev)
      {
        if pending == NULL || i < pending {
          return i, prev;
        }
        assert LinkedAt(View(), live, pending);
        prev := pending;
        pending := slots[pending].next;
      }
      return NULL, prev;
    }

    /** irqchip_insert_pending */
    method Insert(irq: Irq) returns (ret: int)
      requires Valid()
      modifies this`first, this`live, slots
      ensures Valid() && (ret == 0 || ret == -ENOMEM)
      ensures ret == -ENOMEM <==> forall i: nat | i < slots.Length :: i in old(live)
      ensures ret == -ENOMEM ==> View() == old(View()) && live == old(live)
      ensures ret == 0 ==> exists x: nat ::
                && x !in old(live) && x < slots.Length && (forall i: nat | i < x :: i in old(live))
                && live == old(live) + {x} && slots[x].irq == irq && PayloadKept(old(View()), View(), x)
    {
      hide IsNext;
      hide IsPrev;
      hide LinkedAt;
      hide Linked;
      var slot, prev := GetPendingSlot();
      if slot == NULL {
        return -ENOMEM;
      }
      ghost var q := View();
      PrepareKeeps(q, live, slot, prev, irq);
      ghost var r := Prepared(q, slot, prev, irq);
      EnterKeeps(r, live, slot);
      slots[slot] := Slot(irq, slots[slot].next, prev);
      if prev != NULL {
        slots[slot] := slots[slot].(next := slots[prev].next);
        slots[prev] := slots[prev].(next := slot);
      } else {
        slots[slot] := slots[slot].(next := first);
        first := slot;
      }
      if slots[slot].next != NULL {
        var n := slots[slot].next;
        slots[n] := slots[n].(prev := slot);
      }
      assert View() == Entered(r, slot);
      live := live + {slot};
      return 0;
    }

    /**
     * irqchip_inject_pending when nobody interferes: entries leave the queue in order until the list registers are
     * full, and each that leaves is in a register or was there already. If entries are left, the maintenance interrupt
     * is enabled.
     */
    method InjectPending(lrs: array<Lr>)
      requires Valid()
      modifies this`first, this`uie, this`live, slots, lrs
      ensures Valid() && live <= old(live)
      ensures live == {} || (uie && forall i | 0 <= i < lrs.Length :: lrs[i].Used?)
      ensures forall x: nat | x in live :: slots[x].irq == old(slots[x].irq)
      ensures forall x: nat | x in old(live) - live :: Holds(lrs[..], old(slots[x].irq.virtId))
      ensures forall i | 0 <= i < lrs.Length && old(lrs[i]).Used? :: lrs[i] == old(lrs[i])
    {
      hide IsNext;
      hide IsPrev;
      hide LinkedAt;
      hide Linked;
      hide Inject;
      hide Holds;
      var pending := first;
      HeadIs(View(), live);
      while pending != NULL
        invariant Valid() && live <= old(live)
        invariant pending == first && -1 <= pending < slots.Length
        invariant pending == NULL <==> live == {}
        invariant pending != NULL ==> pending in live
        invariant forall x: nat | x in live :: slots[x].irq == old(slots[x].irq)
        invariant forall x: nat | x in old(live) - live :: Holds(lrs[..], old(slots[x].irq.virtId))
        invariant forall i | 0 <= i < lrs.Length && old(lrs[i]).Used? :: lrs[i] == old(lrs[i])
        decreases live
      {
        ghost var before := lrs[..];
        var err, busy := GicInject(lrs, slots[pending].irq);
        InjectHolds(before, slots[pending].irq);
        uie := uie || busy;
        if err == -EBUSY {
          break;
        }
        RemoveHead(View(), live, pending);
        Remove(pending);
        HeadIs(View(), live);
        pending := slots[pending].next;
      }
    }

    /** irqchip_remove_pending */
    method Remove(x: nat)
      requires Valid() && x in live
      modifies this`first, this`live, slots
      ensures Valid() && live == old(live) - {x}
      ensures first == if old(first) == x then old(slots[x].next) else old(first)
      ensures PayloadKept(old(View()), View(), x) && slots[x] == old(slots[x])
    {
      ghost var q := View();
      RemoveKeeps(q, live, x);
      if first == x {
        first := slots[x].next;
      }
      var p, n := slots[x].prev, slots[x].next;
      if p != NULL {
        slots[p] := slots[p].(next := n);
      }
      if n != NULL {
        slots[n] := slots[n].(prev := p);
      }
      assert View() == Removed(q, x);
      live := live - {x};
    }

    /** irqchip_set_pending: injected at once if wanted and possible, queued otherwise. */
    method SetPending(lrs: array<Lr>, irqId: nat, tryInject: bool) returns (ret: int)
      requires Valid()
      modifies this`first, this`uie, this`live, slots, lrs
      ensures Valid() && (ret == 0 || ret == -ENOMEM)
      ensures uie <==> old(uie) || (tryInject && Inject(old(lrs[..]), RequestOf(irqId)).0 == -EBUSY)
      ensures live == old(live) && ret == 0 ==>
                exists f :: 0 <= f < lrs.Length && old(lrs[f]).Free? && Asks(lrs[f], irqId)
      ensures forall x: nat | x in live && x !in old(live) :: x < slots.Length && Asks(Used(slots[x].irq), irqId)
      ensures var r := Inject(old(lrs[..]), RequestOf(irqId));
              if tryInject && r.0 == 0 then ret == 0 && lrs[..] == r.1 && live == old(live) && View() == old(View())
              else
                && lrs[..] == old(lrs[..])
                && (ret == -ENOMEM <==> forall i: nat | i < slots.Length :: i in old(live))
                && (ret == -ENOMEM ==> View() == old(View()) && live == old(live))
                && (ret == 0 ==> exists x: nat :: && x !in old(live) && x < slots.Length && live == old(live) + {x}
                                                  && slots[x].irq == RequestOf(irqId)
                                                  && PayloadKept(old(View()), View(), x))
    {
      hide Linked;
      var irq := RequestOf(irqId);
      if tryInject {
        ghost var before := lrs[..];
        var err, busy := GicInject(lrs, irq);
        uie := uie || busy;
        if err == 0 {
          return 0;
        }
        assert lrs[..] == before;
      }
      ret := Insert(irq);
    }
  }

  /** The entry is for this interrupt: its virtual id, and for one that is no SGI also its physical id. */
  predicate Asks(r: Lr, irqId: nat) {
    r.Used? && r.irq.virtId == irqId && (r.irq.hw <==> irqId >= 16) && (r.irq.hw ==> r.irq.phys == irqId % 0x1_0000)
  }

  function Word(n: nat): bv32
    requires n < 0x1_0000_0000
  {
    n as bv32
  }

  /** The fields of a register word: virtual id, physical id, pending, tied to a physical interrupt. */
  function VirtOf(w: bv32): bv32 { w & 0x3ff }
  function PhysOf(w: bv32): bv32 { (w >> 10) & 0x3ff }
  predicate PendingOf(w: bv32) { (w >> 28) & 3 == 1 }
  predicate HwOf(w: bv32) { w >> 31 == 1 }

  /** The guest sees the interrupt that was asked for, and its end reaches the physical one. */
  lemma AskedReadsBack(r: Lr, irqId: nat)
    requires Asks(r, irqId) && irqId < 0x400 && r.irq.phys < 0x1_0000
    ensures var w := LrWord(Word(r.irq.virtId), r.irq.hw, Word(r.irq.phys));
            && VirtOf(w) == Word(irqId) && PendingOf(w) && (HwOf(w) <==> irqId >= 16)
            && (irqId >= 16 ==> PhysOf(w) == Word(irqId))
  {
    hide Word;
    hide LrWord;
    hide VirtOf;
    hide PhysOf;
    hide PendingOf;
    hide HwOf;
    SmallWord(irqId);
    if irqId >= 16 {
      AskedHardware(Word(irqId));
    } else {
      AskedSgi(Word(irqId), Word(r.irq.phys));
    }
  }

  lemma SmallWord(n: nat)
    requires n < 0x400
    ensures Word(n) < 0x400
  {
  }

  lemma AskedHardware(id: bv32)
    requires id < 0x400
    ensures var w := LrWord(id, true, id); VirtOf(w) == id && PhysOf(w) == id && PendingOf(w) && HwOf(w)
  {
  }

  lemma AskedSgi(id: bv32, phys: bv32)
    requires id < 0x400
    ensures var w := LrWord(id, false, phys); VirtOf(w) == id && PendingOf(w) && !HwOf(w)
  {
  }

  /** What irqchip_set_pending puts into the queue: an SGI is not tied to a physical interrupt. */
  function RequestOf(irqId: nat): Irq {
    if irqId < 16 then Irq(irqId, false, 0) else Irq(irqId, true, irqId % 0x1_0000)
  }
}
