/**
 * Filling the list registers from the queue while other CPUs insert: the owner's loop and the inserters' locked
 * sections as a state machine over their steps in any order.
 */
module Injection {
  import opened PendingIrq

  /** Where the owner is in irqchip_inject_pending; c is its cursor. */
  datatype Owner =
    | Idle
    | Look(c: nat)      // before inject_irq
    | Drop(c: nat)      // before irqchip_remove_pending
    | Advance(c: nat)   // before it reads the next pointer of the entry it has removed

  /** Who holds the lock in irqchip_insert_pending, if anybody: slot, predecessor and interrupt. */
  datatype Inserter =
    | Nobody
    | Found(x: nat, p: int, irq: Irq)   // has its slot
    | Filled(x: nat, p: int, irq: Irq)  // has written payload and pointers of the slot

  /**
   * `live` are the slots in the list. `accepted`, `merged` and `delivered` record the interrupts that were accepted,
   * dropped because a register held the id already, and finished by the guest.
   */
  datatype State = State(
    q: Queue, live: set<nat>, lrs: seq<Lr>, owner: Owner, inserter: Inserter,
    accepted: multiset<Irq>, merged: multiset<Irq>, delivered: multiset<Irq>)

  datatype Event =
    | Find(x: nat, p: int, irq: Irq)  // a CPU takes the lock and get_pending_slot finds x with predecessor p
    | Fill                            // the inserter writes payload and pointers
    | Enter                           // the inserter makes the slot reachable and unlocks
    | Direct(irq: Irq)                // irqchip_set_pending tries the registers first
    | Begin                           // the owner reads first_pending
    | Try                             // the owner calls inject_irq
    | Remove                          // the owner removes the entry under the lock
    | Move                            // the owner reads the next pointer
    | Finish(i: nat)                  // the guest finishes the interrupt in register i

  ghost predicate Enabled(s: State, e: Event) {
    match e
    case Find(x, p, irq) =>
      // what get_pending_slot returns; the ids of the GIC have ten bits
      s.inserter.Nobody? && irq.virtId < IDS
      && x < |s.q.slots| && x !in s.live && (forall i: nat | i < x :: i in s.live) && IsPrev(s.live, x, p)
    case Fill => s.inserter.Found?
    case Enter => s.inserter.Filled?
    case Direct(irq) => s.owner.Idle? && irq.virtId < IDS
    case Begin => s.owner.Idle?
    case Try => s.owner.Look?
    case Remove => s.owner.Drop? && s.inserter.Nobody?
    case Move => s.owner.Advance?
    case Finish(i) => i < |s.lrs| && s.lrs[i].Used?
  }

  ghost predicate Linkable(q: Queue, x: nat) {
    x < |q.slots| && -1 <= q.slots[x].prev < |q.slots| && -1 <= q.slots[x].next < |q.slots|
  }

  function Cursor(n: int): Owner { if n < 0 then Idle else Look(n) }

  ghost function DirectNext(s: State, irq: Irq): State {
    var (ret, lrs) := Inject(s.lrs, irq);
    if ret == 0 then s.(lrs := lrs, accepted := s.accepted + multiset{irq}) else s
  }

  ghost function TryNext(s: State, c: nat): State
    requires c < |s.q.slots|
  {
    var irq := s.q.slots[c].irq;
    var (ret, lrs) := Inject(s.lrs, irq);
    if ret == -EBUSY then s.(owner := Idle)
    else if ret == 0 then s.(lrs := lrs, owner := Drop(c))
    else s.(merged := s.merged + multiset{irq}, owner := Drop(c))
  }

  ghost function Next(s: State, e: Event): State
    requires Inv(s)
  {
    if !Enabled(s, e) then s else
    match e
    case Find(x, p, irq) => s.(inserter := Found(x, p, irq))
    case Fill =>
      var Found(x, p, irq) := s.inserter;
      s.(q := Prepared(s.q, x, p, irq), inserter := Filled(x, p, irq))
    case Enter =>
      var Filled(x, p, irq) := s.inserter;
      s.(q := Entered(s.q, x), live := s.live + {x}, inserter := Nobody, accepted := s.accepted + multiset{irq})
    case Direct(irq) => DirectNext(s, irq)
    case Begin => s.(owner := Cursor(s.q.first))
    case Try => TryNext(s, s.owner.c)
    case Remove => s.(q := Removed(s.q, s.owner.c), live := s.live - {s.owner.c}, owner := Advance(s.owner.c))
    case Move => s.(owner := Cursor(s.q.slots[s.owner.c].next))
    case Finish(i) => s.(lrs := s.lrs[i := Free], delivered := s.delivered + multiset{s.lrs[i].irq})
  }

  // ---- The invariant ----

  /** The inserter's slot is free, its predecessor known; once filled, it is linked to its neighbours. */
  ghost predicate InserterHolds(s: State) {
    match s.inserter
    case Nobody => true
    case Found(x, p, irq) =>
      x < |s.q.slots| && x !in s.live && IsPrev(s.live, x, p) && irq.virtId < IDS && -1 <= p < |s.q.slots|
    case Filled(x, p, irq) =>
      x !in s.live && LinkedAt(s.q, s.live, x) && s.q.slots[x].irq == irq && irq.virtId < IDS && Linkable(s.q, x)
  }

  /**
   * The cursor is on a live entry, or on one just removed whose next pointer is NULL or leads to a live entry behind
   * it.
   */
  ghost predicate CursorHolds(s: State) {
    match s.owner
    case Idle => true
    case Look(c) => c in s.live
    case Drop(c) => c in s.live && Linkable(s.q, c)
    case Advance(c) =>
      c < |s.q.slots| && var n := s.q.slots[c].next; n == NULL || (n > c && n in s.live)
  }

  predicate SmallIds(q: Queue, lrs: seq<Lr>, live: set<nat>) {
    && (forall i: nat | i < |q.slots| && i in live :: q.slots[i].irq.virtId < IDS)
    && (forall i | 0 <= i < |lrs| && lrs[i].Used? :: lrs[i].irq.virtId < IDS)
  }

  function One(b: bool): nat { if b then 1 else 0 }

  /** How often an interrupt stands in the live slots below k. */
  ghost function Queued(slots: seq<Slot>, live: set<nat>, k: nat, irq: Irq): nat
    requires k <= |slots|
  {
    if k == 0 then 0
    else Queued(slots, live, k - 1, irq) + One(k - 1 in live && slots[k - 1].irq == irq)
  }

  /** How often it stands in the registers. */
  function Registered(lrs: seq<Lr>, irq: Irq): nat {
    if lrs == [] then 0
    else Registered(lrs[..|lrs| - 1], irq) + One(lrs[|lrs| - 1] == Used(irq))
  }

  /** An interrupt that is in a register or merged but not yet out of the queue. */
  predicate InTransit(s: State, irq: Irq) {
    s.owner.Drop? && s.owner.c < |s.q.slots| && s.q.slots[s.owner.c].irq == irq
  }

  /** All that was accepted is in the queue, in a register, merged or delivered. */
  ghost predicate Balanced(s: State, irq: Irq) {
    s.accepted[irq] + One(InTransit(s, irq)) ==
    Queued(s.q.slots, s.live, |s.q.slots|, irq) + Registered(s.lrs, irq) + s.merged[irq] + s.delivered[irq]
  }

  ghost predicate Conserved(s: State) {
    forall irq: Irq {:trigger Balanced(s, irq)} :: Balanced(s, irq)
  }

  ghost predicate Structure(s: State) {
    && Linked(s.q, s.live) && (forall x: nat | x in s.live :: x < |s.q.slots|)
    && InserterHolds(s) && CursorHolds(s) && Unique(s.lrs) && SmallIds(s.q, s.lrs, s.live)
  }

  ghost predicate Inv(s: State) { Structure(s) && Conserved(s) }

  // ---- Every step keeps the structure ----

  lemma FindStructure(s: State, x: nat, p: int, irq: Irq)
    requires Inv(s) && Enabled(s, Find(x, p, irq))
    ensures Structure(Next(s, Find(x, p, irq)))
  {
    hide Linked;
  }

  lemma FillStructure(s: State)
    requires Inv(s) && s.inserter.Found?
    ensures Structure(Next(s, Fill))
  {
    hide Linked;
    hide Conserved;
    var Found(x, p, irq) := s.inserter;
    PrepareKeeps(s.q, s.live, x, p, irq);
    NeighboursIn(Prepared(s.q, x, p, irq), s.live, x);
  }

  lemma EnterStructure(s: State)
    requires Inv(s) && s.inserter.Filled?
    ensures Structure(Next(s, Enter))
  {
    hide Linked;
    hide Conserved;
    var Filled(x, p, irq) := s.inserter;
    EnterKeeps(s.q, s.live, x);
    var t := Next(s, Enter);
    if s.owner.Drop? {
      At(t.q, t.live, s.owner.c);
      NeighboursIn(t.q, t.live, s.owner.c);
    }
  }

  lemma RemoveStructure(s: State)
    requires Inv(s) && Enabled(s, Event.Remove)
    ensures Structure(Next(s, Event.Remove))
  {
    hide Linked;
    hide Conserved;
    At(s.q, s.live, s.owner.c);
    RemoveKeeps(s.q, s.live, s.owner.c);
  }

  lemma InjectStructure(lrs: seq<Lr>, irq: Irq)
    requires Unique(lrs) && irq.virtId < IDS && forall i | 0 <= i < |lrs| && lrs[i].Used? :: lrs[i].irq.virtId < IDS
    ensures var after := Inject(lrs, irq).1;
            Unique(after) && forall i | 0 <= i < |after| && after[i].Used? :: after[i].irq.virtId < IDS
  {
    if Inject(lrs, irq).0 == 0 {
      InjectUniqueIff(lrs, irq);
    }
  }

  lemma DirectStructure(s: State, irq: Irq)
    requires Inv(s) && Enabled(s, Direct(irq))
    ensures Structure(Next(s, Direct(irq)))
  {
    hide Linked;
    hide Conserved;
    hide Unique;
    hide Inject;
    InjectStructure(s.lrs, irq);
  }

  lemma TryStructure(s: State)
    requires Inv(s) && s.owner.Look?
    ensures Structure(Next(s, Try))
  {
    hide Linked;
    hide Conserved;
    hide Unique;
    hide Inject;
    var c := s.owner.c;
    InjectStructure(s.lrs, s.q.slots[c].irq);
    At(s.q, s.live, c);
    NeighboursIn(s.q, s.live, c);
  }

  lemma BeginStructure(s: State)
    requires Inv(s)
    ensures Structure(Next(s, Begin)) && Structure(Next(s, Move))
  {
    hide Linked;
    hide Conserved;
    hide Unique;
    HeadIs(s.q, s.live);
  }

  lemma FinishStructure(s: State, i: nat)
    requires Inv(s)
    ensures Structure(Next(s, Finish(i)))
  {
    hide Linked;
    hide Conserved;
  }

  lemma StructureKept(s: State, e: Event)
    requires Inv(s)
    ensures Structure(Next(s, e))
  {
    hide Inv;
    hide Structure;
    hide Next;
    if Enabled(s, e) {
      match e
      case Find(x, p, irq) => FindStructure(s, x, p, irq);
      case Fill => FillStructure(s);
      case Enter => EnterStructure(s);
      case Direct(irq) => DirectStructure(s, irq);
      case Begin => BeginStructure(s);
      case Try => TryStructure(s);
      case Remove => RemoveStructure(s);
      case Move => BeginStructure(s);
      case Finish(i) => FinishStructure(s, i);
    } else {
      Disabled(s, e);
    }
  }

  lemma Disabled(s: State, e: Event)
    requires Inv(s) && !Enabled(s, e)
    ensures Next(s, e) == s && Structure(s)
  {
  }

  // ---- No interrupt is lost or made up ----

  lemma {:induction false} QueuedSame(a: seq<Slot>, b: seq<Slot>, live: set<nat>, k: nat, irq: Irq)
    requires k <= |a| == |b| && forall i: nat | i < k && i in live :: a[i].irq == b[i].irq
    ensures Queued(a, live, k, irq) == Queued(b, live, k, irq)
  {
    if k > 0 {
      QueuedSame(a, b, live, k - 1, irq);
    }
  }

  lemma {:induction false} QueuedWith(slots: seq<Slot>, live: set<nat>, x: nat, k: nat, irq: Irq)
    requires k <= |slots| && x < |slots| && x !in live
    ensures Queued(slots, live + {x}, k, irq) == Queued(slots, live, k, irq) + One(x < k && slots[x].irq == irq)
  {
    if k > 0 {
      QueuedWith(slots, live, x, k - 1, irq);
    }
  }

  lemma {:induction false} RegisteredSet(lrs: seq<Lr>, i: nat, r: Lr, irq: Irq)
    requires i < |lrs|
    ensures Registered(lrs[i := r], irq) + One(lrs[i] == Used(irq)) == Registered(lrs, irq) + One(r == Used(irq))
  {
    var k := |lrs| - 1;
    if i < k {
      RegisteredSet(lrs[..k], i, r, irq);
      assert lrs[i := r][..k] == lrs[..k][i := r];
    } else {
      assert lrs[i := r][..k] == lrs[..k];
    }
  }

  lemma InjectRegisters(lrs: seq<Lr>, other: Irq, irq: Irq)
    ensures var (ret, after) := Inject(lrs, other);
            && Registered(after, irq) == Registered(lrs, irq) + One(ret == 0 && other == irq)
            && (ret != 0 ==> after == lrs)
  {
    if Inject(lrs, other).0 == 0 {
      RegisteredSet(lrs, FirstFree(lrs), Used(other), irq);
    }
  }

  lemma FillBalance(s: State, irq: Irq)
    requires Inv(s) && Balanced(s, irq) && s.inserter.Found?
    ensures Balanced(Next(s, Fill), irq)
  {
    hide Linked;
    hide Conserved;
    var Found(x, p, other) := s.inserter;
    QueuedSame(s.q.slots, Prepared(s.q, x, p, other).slots, s.live, |s.q.slots|, irq);
  }

  lemma EnterBalance(s: State, irq: Irq)
    requires Inv(s) && Balanced(s, irq) && s.inserter.Filled?
    ensures Balanced(Next(s, Enter), irq)
  {
    hide Linked;
    hide Conserved;
    var Filled(x, p, other) := s.inserter;
    EnterKeeps(s.q, s.live, x);
    var t := Next(s, Enter);
    QueuedSame(s.q.slots, t.q.slots, t.live, |s.q.slots|, irq);
    QueuedWith(s.q.slots, s.live, x, |s.q.slots|, irq);
  }

  lemma RemoveBalance(s: State, irq: Irq)
    requires Inv(s) && Balanced(s, irq) && Enabled(s, Event.Remove)
    ensures Balanced(Next(s, Event.Remove), irq)
  {
    hide Linked;
    hide Conserved;
    var c := s.owner.c;
    RemoveKeeps(s.q, s.live, c);
    var t := Next(s, Event.Remove);
    QueuedSame(s.q.slots, t.q.slots, t.live, |s.q.slots|, irq);
    QueuedWith(s.q.slots, s.live - {c}, c, |s.q.slots|, irq);
    assert s.live - {c} + {c} == s.live;
  }

  lemma TryBalance(s: State, irq: Irq)
    requires Inv(s) && Balanced(s, irq) && s.owner.Look?
    ensures Balanced(Next(s, Try), irq)
  {
    hide Linked;
    hide Conserved;
    hide Inject;
    InjectRegisters(s.lrs, s.q.slots[s.owner.c].irq, irq);
  }

  lemma DirectBalance(s: State, other: Irq, irq: Irq)
    requires Inv(s) && Balanced(s, irq) && Enabled(s, Direct(other))
    ensures Balanced(Next(s, Direct(other)), irq)
  {
    hide Linked;
    hide Conserved;
    hide Inject;
    InjectRegisters(s.lrs, other, irq);
  }

  lemma FinishBalance(s: State, i: nat, irq: Irq)
    requires Inv(s) && Balanced(s, irq) && Enabled(s, Finish(i))
    ensures Balanced(Next(s, Finish(i)), irq)
  {
    hide Linked;
    hide Conserved;
    RegisteredSet(s.lrs, i, Free, irq);
  }

  lemma BalanceKept(s: State, e: Event, irq: Irq)
    requires Inv(s) && Balanced(s, irq)
    ensures Balanced(Next(s, e), irq)
  {
    hide Conserved;
    hide Structure;
    if Enabled(s, e) {
      match e
      case Fill => FillBalance(s, irq);
      case Enter => EnterBalance(s, irq);
      case Direct(other) => DirectBalance(s, other, irq);
      case Try => TryBalance(s, irq);
      case Remove => RemoveBalance(s, irq);
      case Finish(i) => FinishBalance(s, i, irq);
      case _ =>
    }
  }

  lemma ConservedKept(s: State, e: Event)
    requires Inv(s)
    ensures Conserved(Next(s, e))
  {
    hide Next;
    hide Structure;
    hide Balanced;
    forall irq: Irq ensures Balanced(Next(s, e), irq) {
      assert Balanced(s, irq);
      BalanceKept(s, e, irq);
    }
  }

  lemma Both(s: State)
    requires Structure(s) && Conserved(s)
    ensures Inv(s)
  {
  }

  lemma Kept(s: State, e: Event)
    requires Inv(s)
    ensures Inv(Next(s, e))
  {
    hide Next;
    StructureKept(s, e);
    ConservedKept(s, e);
    Both(Next(s, e));
  }

  // ---- Over whole runs ----

  ghost predicate Initial(s: State) {
    && s.q.first == NULL && s.live == {} && s.owner.Idle? && s.inserter.Nobody?
    && (forall i | 0 <= i < |s.lrs| :: s.lrs[i].Free?)
    && s.accepted == s.merged == s.delivered == multiset{}
  }

  /** A run from an empty queue; the step is defined under the invariant, which RunHolds shows to hold throughout. */
  ghost predicate Run(states: seq<State>, events: seq<Event>) {
    && |states| == |events| + 1 && Initial(states[0])
    && forall i | 0 <= i < |events| :: Inv(states[i]) ==> states[i + 1] == Next(states[i], events[i])
  }

  lemma {:induction false} NothingQueued(slots: seq<Slot>, k: nat, irq: Irq)
    requires k <= |slots|
    ensures Queued(slots, {}, k, irq) == 0
  {
    if k > 0 {
      NothingQueued(slots, k - 1, irq);
    }
  }

  lemma {:induction false} NothingRegistered(lrs: seq<Lr>, irq: Irq)
    requires forall i | 0 <= i < |lrs| :: lrs[i].Free?
    ensures Registered(lrs, irq) == 0
  {
    if lrs != [] {
      NothingRegistered(lrs[..|lrs| - 1], irq);
    }
  }

  lemma InitialHolds(s: State)
    requires Initial(s)
    ensures Inv(s)
  {
    forall irq: Irq ensures Balanced(s, irq) {
      NothingQueued(s.q.slots, |s.q.slots|, irq);
      NothingRegistered(s.lrs, irq);
    }
  }

  lemma {:induction false} RunHolds(states: seq<State>, events: seq<Event>, k: nat)
    requires Run(states, events) && k < |states|
    ensures Inv(states[k])
  {
    hide Inv;
    hide Next;
    if k == 0 {
      InitialHolds(states[0]);
    } else {
      RunHolds(states, events, k - 1);
      Kept(states[k - 1], events[k - 1]);
    }
  }

  /**
   * In every run, with any inserts in between: the list is sorted and linked, the cursor is on a live entry or will
   * next be on one or at the end, no id is in two registers, and every accepted interrupt is accounted for.
   */
  lemma NeverLost(states: seq<State>, events: seq<Event>, k: nat, irq: Irq)
    requires Run(states, events) && k < |states|
    ensures Linked(states[k].q, states[k].live) && CursorHolds(states[k])
    ensures Unique(states[k].lrs) && Balanced(states[k], irq)
  {
    hide Linked;
    hide Next;
    RunHolds(states, events, k);
    assert Conserved(states[k]);
  }

  // ---- What goes where ----

  lemma InjectRefuses(lrs: seq<Lr>, irq: Irq)
    requires irq.virtId < IDS
    ensures Inject(lrs, irq).0 != 0 <==> Holds(lrs, irq.virtId) || forall i | 0 <= i < |lrs| :: lrs[i].Used?
  {
  }

  /** Nothing but a register changes when an interrupt is injected directly, and it is there exactly if it was taken. */
  lemma DirectTakes(s: State, irq: Irq)
    requires Inv(s) && Enabled(s, Direct(irq))
    ensures var t := Next(s, Direct(irq));
            var refused := Holds(s.lrs, irq.virtId) || forall i | 0 <= i < |s.lrs| :: s.lrs[i].Used?;
            && Registered(t.lrs, irq) == Registered(s.lrs, irq) + One(!refused)
            && t.accepted[irq] == s.accepted[irq] + One(!refused) && (refused ==> t == s)
            && t.q == s.q && t.live == s.live && t.merged == s.merged && t.delivered == s.delivered
  {
    hide Structure;
    hide Conserved;
    hide Holds;
    hide Inject;
    InjectRegisters(s.lrs, irq, irq);
    InjectRefuses(s.lrs, irq);
  }

  /** A finished interrupt leaves its register, and only that. */
  lemma FinishFrees(s: State, i: nat)
    requires Inv(s) && Enabled(s, Finish(i))
    ensures var t, irq := Next(s, Finish(i)), s.lrs[i].irq;
            && Registered(t.lrs, irq) + 1 == Registered(s.lrs, irq) && t.delivered[irq] == s.delivered[irq] + 1
            && t.lrs[i].Free? && (forall j | 0 <= j < |s.lrs| && j != i :: t.lrs[j] == s.lrs[j])
            && t.q == s.q && t.live == s.live && t.accepted == s.accepted && t.merged == s.merged
  {
    hide Linked;
    hide Conserved;
    RegisteredSet(s.lrs, i, Free, s.lrs[i].irq);
  }

  /** An interrupt for which a slot was found is in the queue once its inserter is through, and nothing else moves. */
  lemma InsertQueues(s: State, x: nat, p: int, irq: Irq)
    requires Inv(s) && Enabled(s, Find(x, p, irq))
    ensures var a := Next(s, Find(x, p, irq));
            Inv(a) && var b := Next(a, Fill);
            Inv(b) && var t := Next(b, Enter);
            && Queued(t.q.slots, t.live, |t.q.slots|, irq) == Queued(s.q.slots, s.live, |s.q.slots|, irq) + 1
            && t.live == s.live + {x} && t.q.slots[x].irq == irq && t.inserter.Nobody?
            && t.accepted[irq] == s.accepted[irq] + 1
            && t.lrs == s.lrs && t.owner == s.owner && t.merged == s.merged && t.delivered == s.delivered
  {
    var a := Next(s, Find(x, p, irq));
    Kept(s, Find(x, p, irq));
    var b := Next(a, Fill);
    Kept(a, Fill);
    var t := Next(b, Enter);
    Kept(b, Enter);
    InsertMoves(s, x, p, irq);
    assert Balanced(s, irq) && Balanced(t, irq);
  }

  lemma InsertMoves(s: State, x: nat, p: int, irq: Irq)
    requires Inv(s) && Enabled(s, Find(x, p, irq))
    requires var a := Next(s, Find(x, p, irq)); Inv(a) && Inv(Next(a, Fill))
    ensures var t := Next(Next(Next(s, Find(x, p, irq)), Fill), Enter);
            && t.live == s.live + {x} && x < |t.q.slots| && t.q.slots[x].irq == irq && t.inserter.Nobody?
            && t.accepted == s.accepted + multiset{irq} && (InTransit(s, irq) <==> InTransit(t, irq))
            && t.lrs == s.lrs && t.owner == s.owner && t.merged == s.merged && t.delivered == s.delivered
  {
    hide Linked;
    hide Conserved;
  }

  // ---- A pass ends ----

  /** The owner makes a step of its pass. */
  ghost predicate OwnerSteps(s: State, e: Event) { Enabled(s, e) && (e.Try? || e.Remove? || e.Move?) }

  /** How many steps are left at most: three for every slot from the cursor on. */
  function Left(s: State): int {
    match s.owner
    case Idle => 0
    case Look(c) => 3 * (|s.q.slots| - c)
    case Drop(c) => 3 * (|s.q.slots| - c) - 1
    case Advance(c) => 3 * (|s.q.slots| - c) - 2
  }

  /** The cursor only moves on to later slots, whatever others insert. */
  lemma CursorClimbs(s: State, e: Event)
    requires Inv(s) && !s.owner.Idle?
    ensures |Next(s, e).q.slots| == |s.q.slots|
    ensures if OwnerSteps(s, e) then 0 <= Left(Next(s, e)) < Left(s) else Left(Next(s, e)) == Left(s)
  {
    hide Conserved;
    hide Linked;
    hide Inject;
    if !OwnerSteps(s, e) {
      OthersStay(s, e);
    } else if e.Try? {
      TryClimbs(s);
    }
  }

  lemma TryClimbs(s: State)
    requires Inv(s) && s.owner.Look?
    ensures var t := Next(s, Try); |t.q.slots| == |s.q.slots| && 0 <= Left(t) < Left(s)
  {
    hide Conserved;
    hide Linked;
    hide Inject;
  }

  lemma OthersStay(s: State, e: Event)
    requires Inv(s) && !s.owner.Idle? && !OwnerSteps(s, e)
    ensures |Next(s, e).q.slots| == |s.q.slots| && Next(s, e).owner == s.owner
  {
    hide Conserved;
    hide Linked;
    hide Inject;
  }

  /** The owner's steps among the events from i to j. */
  ghost function StepsOf(states: seq<State>, events: seq<Event>, i: nat, j: nat): nat
    requires i <= j <= |events| <= |states|
  {
    if i == j then 0 else StepsOf(states, events, i, j - 1) + One(OwnerSteps(states[j - 1], events[j - 1]))
  }

  /**
   * In every run a pass takes at most three steps of the owner for every slot, however many interrupts are inserted.
   */
  lemma {:induction false} PassEnds(states: seq<State>, events: seq<Event>, i: nat, j: nat)
    requires Run(states, events) && i <= j < |states| && forall k | i <= k < j :: !states[k].owner.Idle?
    ensures StepsOf(states, events, i, j) + Left(states[j]) <= Left(states[i]) <= 3 * |states[i].q.slots|
    ensures StepsOf(states, events, i, j) <= 3 * |states[i].q.slots|
    decreases j
  {
    hide Inv;
    hide Next;
    hide OwnerSteps;
    RunHolds(states, events, i);
    RunHolds(states, events, j);
    LeftBound(states[i]);
    LeftBound(states[j]);
    if i < j {
      PassEnds(states, events, i, j - 1);
      RunHolds(states, events, j - 1);
      CursorClimbs(states[j - 1], events[j - 1]);
    }
  }

  lemma LeftBound(s: State)
    requires Inv(s)
    ensures 0 <= Left(s) <= 3 * |s.q.slots|
  {
    hide Conserved;
    hide Linked;
  }

  // ---- A pass does its work ----

  /** The entries that were in the list at i and have not left it until k. */
  ghost function Rest(states: seq<State>, i: nat, k: nat): set<nat>
    requires i <= k < |states|
  {
    if k == i then states[i].live else Rest(states, i, k - 1) * states[k].live
  }

  /** The cursor will come to all of these. */
  ghost predicate Ahead(s: State, rest: set<nat>) {
    && rest <= s.live
    && match s.owner
       case Idle => true
       case Look(c) => forall x | x in rest :: x >= c
       case Drop(c) => forall x | x in rest :: x >= c
       case Advance(c) =>
         c < |s.q.slots| && forall x | x in rest :: s.q.slots[c].next != NULL && x >= s.q.slots[c].next && x > c
  }

  /** A step of a pass keeps the entries ahead, or ends it: at the end of the list, or with all registers used. */
  ghost predicate StaysAhead(s: State, t: State, e: Event, rest: set<nat>) {
    if t.owner.Idle? then rest == {} || (e.Try? && forall i | 0 <= i < |t.lrs| :: t.lrs[i].Used?)
    else Ahead(t, rest * t.live)
  }

  lemma TryAhead(s: State, rest: set<nat>)
    requires Inv(s) && s.owner.Look? && Ahead(s, rest)
    ensures StaysAhead(s, Next(s, Try), Try, rest)
  {
    hide Conserved;
    hide Linked;
    hide Inject;
    InjectHolds(s.lrs, s.q.slots[s.owner.c].irq);
  }

  lemma RemoveAhead(s: State, rest: set<nat>)
    requires Inv(s) && Enabled(s, Event.Remove) && Ahead(s, rest)
    ensures StaysAhead(s, Next(s, Event.Remove), Event.Remove, rest)
  {
    hide Conserved;
    hide Linked;
    At(s.q, s.live, s.owner.c);
    RemoveKeeps(s.q, s.live, s.owner.c);
  }

  lemma MoveAhead(s: State, rest: set<nat>)
    requires Inv(s) && s.owner.Advance? && Ahead(s, rest)
    ensures StaysAhead(s, Next(s, Move), Move, rest)
  {
    hide Conserved;
    hide Linked;
  }

  lemma FillAhead(s: State, rest: set<nat>)
    requires Inv(s) && s.inserter.Found? && !s.owner.Idle? && Ahead(s, rest)
    ensures StaysAhead(s, Next(s, Fill), Fill, rest)
  {
    hide Conserved;
    hide Linked;
    var Found(x, p, irq) := s.inserter;
    PrepareKeeps(s.q, s.live, x, p, irq);
  }

  lemma EnterAhead(s: State, rest: set<nat>)
    requires Inv(s) && s.inserter.Filled? && !s.owner.Idle? && Ahead(s, rest)
    ensures StaysAhead(s, Next(s, Enter), Enter, rest)
  {
    hide Conserved;
    hide Linked;
    var Filled(x, p, irq) := s.inserter;
    EnterKeeps(s.q, s.live, x);
    var t := Next(s, Enter);
    if s.owner.Advance? && s.owner.c in t.live {
      At(t.q, t.live, s.owner.c);
    }
  }

  lemma StepAhead(s: State, e: Event, rest: set<nat>)
    requires Inv(s) && !s.owner.Idle? && Ahead(s, rest)
    ensures StaysAhead(s, Next(s, e), e, rest)
  {
    hide Conserved;
    hide Linked;
    hide Inject;
    hide StaysAhead;
    var t := Next(s, e);
    if t.owner == s.owner && t.live == s.live && t.q == s.q {
      Untouched(s, t, e, rest);
    } else {
      match e
      case Try => TryAhead(s, rest);
      case Remove => RemoveAhead(s, rest);
      case Move => MoveAhead(s, rest);
      case Fill => FillAhead(s, rest);
      case Enter => EnterAhead(s, rest);
      case _ =>
    }
  }

  lemma Untouched(s: State, t: State, e: Event, rest: set<nat>)
    requires Ahead(s, rest) && !s.owner.Idle? && t.owner == s.owner && t.live == s.live && t.q == s.q
    ensures StaysAhead(s, t, e, rest)
  {
    assert rest * t.live == rest;
  }

  /** The owner begins with the first entry, and all are ahead. */
  lemma BeginAhead(s: State)
    requires Inv(s) && s.owner.Idle?
    ensures var t := Next(s, Begin); if t.owner.Idle? then s.live == {} else Ahead(t, s.live * t.live)
  {
    hide Conserved;
    hide Unique;
    HeadIs(s.q, s.live);
  }

  /** States i + 1 to j belong to one pass, which begins with event i. */
  ghost predicate Pass(states: seq<State>, events: seq<Event>, i: nat, j: nat) {
    && i < j < |states| == |events| + 1 && events[i].Begin? && states[i].owner.Idle?
    && forall k | i < k < j :: !states[k].owner.Idle?
  }

  lemma {:induction false} PassAhead(states: seq<State>, events: seq<Event>, i: nat, j: nat)
    requires Run(states, events) && Pass(states, events, i, j)
    ensures if states[j].owner.Idle?
            then Rest(states, i, j) == {} || forall r | 0 <= r < |states[j].lrs| :: states[j].lrs[r].Used?
            else Ahead(states[j], Rest(states, i, j))
    decreases j
  {
    hide Inv;
    hide Next;
    hide Ahead;
    RunHolds(states, events, j - 1);
    if j == i + 1 {
      BeginAhead(states[i]);
    } else {
      PassAhead(states, events, i, j - 1);
      StepAhead(states[j - 1], events[j - 1], Rest(states, i, j - 1));
    }
  }

  /**
   * In every run, with any inserts in between: when a pass ends, every entry that was in the list when it began has
   * left it, or all registers are in use.
   */
  lemma PassDrains(states: seq<State>, events: seq<Event>, i: nat, j: nat)
    requires Run(states, events) && Pass(states, events, i, j) && states[j].owner.Idle?
    ensures Rest(states, i, j) == {} || forall r | 0 <= r < |states[j].lrs| :: states[j].lrs[r].Used?
  {
    PassAhead(states, events, i, j);
  }
}
