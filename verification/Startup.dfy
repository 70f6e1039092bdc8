/**
 * The entry of all CPUs into the hypervisor: the init lock, the master, the error variable and the barrier, as a
 * state machine over the steps of n CPUs in any order.
 */
module Startup {
  import opened Counting
  import opened Options

  const UINT: nat := 0x1_0000_0000
  const EINVAL: int := 22

  /** Where a CPU is in entry(); `master` is its local variable. */
  datatype Pc =
    | Start                          // before the lock
    | Locked                         // has the lock, looks at master_cpu_id
    | Checking(master: bool)         // before the test of error
    | Registering(master: bool)      // in cpu_init, before register_root_cpu
    | ArchInit(master: bool)         // registered, in arch_cpu_init
    | Failed(master: bool, err: int) // in cpu_init, at its failure exit
    | Inited(master: bool)           // after cpu_init
    | Late(master: bool)             // in init_late
    | Unlocking(master: bool)        // before spin_unlock
    | Waiting(master: bool)          // in the barrier, before the test of error
    | Tallying(master: bool)         // in the barrier, has seen no error, before the test of initialized_cpus
    | Leaving(master: bool)          // behind the barrier
    | Restoring(master: bool)        // has seen an error behind the barrier
    | Active(master: bool)           // in arch_cpu_activate_vmm
    | Returned(master: bool, err: int)

  /**
   * The shared variables and the CPUs. `valid` are the CPU ids the root configuration has, `online` is the number of
   * CPUs in the header. `ok` records who has been initialized; the code only counts them.
   */
  datatype State = State(
    online: nat, valid: set<nat>, lock: Option<nat>, master: Option<nat>, error: int, initialized: nat,
    rootSet: set<nat>, cpus: seq<Pc>, ok: set<nat>)

  function Init(n: nat, online: nat, valid: set<nat>): State {
    State(online, valid, None, None, 0, 0, {}, seq(n, _ => Start), {})
  }

  /** CPU c moves; err is what the initialization function it is in returns. Waiting for the lock changes nothing. */
  datatype Event = Event(c: nat, err: int)

  function To(s: State, c: nat, pc: Pc): State
    requires c < |s.cpus|
  {
    s.(cpus := s.cpus[c := pc])
  }

  function Next(s: State, e: Event): State {
    if e.c >= |s.cpus| then s else
    var c := e.c;
    match s.cpus[c]
    case Start => if s.lock.Some? then s else To(s.(lock := Some(c)), c, Locked)
    case Locked =>
      if s.master.None? then To(s.(master := Some(c), error := e.err), c, Checking(true))
      else To(s, c, Checking(false))
    case Checking(m) => To(s, c, if s.error == 0 then Registering(m) else Unlocking(m))
    case Registering(m) =>
      if c in s.valid then To(s.(rootSet := s.rootSet + {c}), c, ArchInit(m)) else To(s, c, Failed(m, -EINVAL))
    case ArchInit(m) =>
      if e.err == 0 then To(s.(initialized := (s.initialized + 1) % UINT, ok := s.ok + {c}), c, Inited(m))
      else To(s, c, Failed(m, e.err))
    case Failed(m, err) => To(if s.error == 0 then s.(error := err) else s, c, Inited(m))
    case Inited(m) => To(s, c, if m && s.error == 0 then Late(m) else Unlocking(m))
    case Late(m) => To(s.(error := e.err), c, Unlocking(m))
    case Unlocking(m) => To(s.(lock := None), c, Waiting(m))
    case Waiting(m) => To(s, c, if s.error == 0 then Tallying(m) else Leaving(m))
    case Tallying(m) => To(s, c, if s.initialized < s.online then Waiting(m) else Leaving(m))
    case Leaving(m) => To(s, c, if s.error == 0 then Active(m) else Restoring(m))
    case Restoring(m) => To(s, c, Returned(m, s.error))
    case Active(_) => s
    case Returned(_, _) => s
  }

  function Play(s: State, events: seq<Event>): State {
    if events == [] then s else Next(Play(s, events[..|events| - 1]), events[|events| - 1])
  }

  // ---- What is promised ----

  /** Two CPUs that are through entry() both run the hypervisor or both return, with the same error. */
  predicate SameEnd(p: Pc, q: Pc) {
    && (p.Active? ==> !q.Returned?)
    && (p.Returned? && q.Returned? ==> p.err == q.err != 0)
  }

  predicate Agree(s: State) {
    forall a, b | 0 <= a < |s.cpus| && 0 <= b < |s.cpus| :: SameEnd(s.cpus[a], s.cpus[b])
  }

  ghost predicate AlwaysAgree(n: nat, online: nat) {
    forall valid: set<nat>, events: seq<Event> :: Agree(Play(Init(n, online, valid), events))
  }

  // ---- The invariant ----

  predicate Critical(p: Pc) {
    match p
    case Locked | Checking(_) | Registering(_) | ArchInit(_) | Failed(_, _) | Inited(_) | Late(_) | Unlocking(_) => true
    case _ => false
  }

  predicate Early(p: Pc) { p.Start? || p.Locked? }

  predicate Done(p: Pc) {
    match p
    case Start | Locked | Checking(_) | Registering(_) | ArchInit(_) | Failed(_, _) => false
    case _ => true
  }

  /** Lock and master: the holder is the one CPU in the critical section, the master the one with its flag. */
  predicate Owners(s: State) {
    && (forall c: nat | c < |s.cpus| :: s.lock == Some(c) <==> Critical(s.cpus[c]))
    && (forall c: nat | c < |s.cpus| && !Early(s.cpus[c]) ::
          s.master.Some? && (s.cpus[c].master <==> s.master == Some(c)))
    && (s.master.Some? ==> s.master.value < |s.cpus| && !Early(s.cpus[s.master.value]))
    && (s.lock.Some? ==> s.lock.value < |s.cpus|)
  }

  /** While the master is inside, everybody else is at the start. */
  predicate MasterFirst(s: State) {
    s.master.Some? && s.master.value < |s.cpus| && Critical(s.cpus[s.master.value]) ==>
      forall c: nat | c < |s.cpus| && s.master != Some(c) :: s.cpus[c].Start?
  }

  ghost predicate Counted(s: State) {
    && s.initialized == |s.ok| && s.ok <= s.rootSet <= UpTo(|s.cpus|)
    && (forall c: nat | c < |s.cpus| && c in s.ok :: Done(s.cpus[c]))
  }

  /** Who may still write the error variable found it clear. */
  predicate Errors(s: State) {
    && (s.master.None? ==> s.error == 0)
    && (forall c: nat | c < |s.cpus| && Writer(s.cpus[c]) :: s.error == 0)
    && (forall c: nat | c < |s.cpus| && s.cpus[c].ArchInit? :: c in s.rootSet)
    && (forall c: nat | c < |s.cpus| && s.cpus[c].Failed? :: s.cpus[c].err != 0 && c !in s.ok)
    && (forall c: nat | c < |s.cpus| && s.cpus[c].Late? :: s.cpus[c].master)
  }

  /** Everybody is initialized, and nobody can raise an error any more. */
  ghost predicate Settled(s: State) {
    && s.error == 0 && s.ok == UpTo(|s.cpus|) && s.online <= |s.cpus|
    && s.master.Some? && s.master.value < |s.cpus| && !Critical(s.cpus[s.master.value])
  }

  ghost predicate Ends(s: State) {
    && (s.error != 0 ==> s.ok != UpTo(|s.cpus|))
    && (forall c: nat | c < |s.cpus| && s.cpus[c].Leaving? :: s.error != 0 || Settled(s))
    && (forall c: nat | c < |s.cpus| && s.cpus[c].Active? :: Settled(s))
    && (forall c: nat | c < |s.cpus| && s.cpus[c].Restoring? :: s.error != 0)
    && (forall c: nat | c < |s.cpus| && s.cpus[c].Returned? :: s.cpus[c].err == s.error != 0)
  }

  ghost predicate Base(s: State) { |s.cpus| < UINT && Owners(s) && MasterFirst(s) && Counted(s) && Errors(s) }

  // ---- Every step keeps it ----

  /** Only CPU c has moved. */
  predicate Moved(s: State, t: State, c: nat) {
    && c < |s.cpus| == |t.cpus| && t.cpus == s.cpus[c := t.cpus[c]] && t.online == s.online && t.valid == s.valid
  }

  /** Neither lock nor master change hands. */
  predicate Plain(s: State, t: State, c: nat) {
    && Moved(s, t, c) && t.lock == s.lock && t.master == s.master
    && var p, q := s.cpus[c], t.cpus[c];
       && (Critical(p) <==> Critical(q)) && (Early(p) <==> Early(q)) && !p.Start? && !q.Start?
       && (!Early(p) ==> p.master == q.master)
  }

  lemma OwnersPlain(s: State, t: State, c: nat)
    requires Owners(s) && MasterFirst(s) && Plain(s, t, c)
    ensures Owners(t) && MasterFirst(t)
  {
  }

  lemma OwnersAcquire(s: State, t: State, c: nat)
    requires Owners(s) && MasterFirst(s) && Moved(s, t, c) && t.lock == Some(c) && t.master == s.master
    requires s.lock.None? && s.cpus[c].Start? && t.cpus[c].Locked?
    ensures Owners(t) && MasterFirst(t)
  {
  }

  lemma OwnersMaster(s: State, t: State, c: nat)
    requires Owners(s) && MasterFirst(s) && Moved(s, t, c) && t.lock == s.lock && s.cpus[c].Locked?
    requires if s.master.None? then t.master == Some(c) && t.cpus[c] == Checking(true)
             else t.master == s.master && t.cpus[c] == Checking(false)
    ensures Owners(t) && MasterFirst(t)
  {
    if s.master.None? {
      assert forall d: nat | d < |s.cpus| && d != c :: Early(s.cpus[d]) && !Critical(s.cpus[d]);
    }
  }

  lemma OwnersRelease(s: State, t: State, c: nat)
    requires Owners(s) && MasterFirst(s) && Moved(s, t, c) && t.lock.None? && t.master == s.master
    requires s.cpus[c].Unlocking? && t.cpus[c] == Waiting(s.cpus[c].master)
    ensures Owners(t) && MasterFirst(t)
  {
  }

  lemma OwnersKept(s: State, e: Event)
    requires Base(s)
    ensures Owners(Next(s, e)) && MasterFirst(Next(s, e))
  {
    hide Owners;
    hide MasterFirst;
    hide Counted;
    hide Errors;
    var t := Next(s, e);
    if e.c < |s.cpus| && t != s {
      match s.cpus[e.c]
      case Start => OwnersAcquire(s, t, e.c);
      case Locked => OwnersMaster(s, t, e.c);
      case Unlocking(_) => OwnersRelease(s, t, e.c);
      case _ => OwnersPlain(s, t, e.c);
    }
  }

  lemma CountedSame(s: State, t: State, c: nat)
    requires Counted(s) && Moved(s, t, c) && t.ok == s.ok && t.initialized == s.initialized
    requires s.rootSet <= t.rootSet <= s.rootSet + {c}
    requires Done(s.cpus[c]) ==> Done(t.cpus[c])
    ensures Counted(t)
  {
  }

  lemma CountedUp(s: State, t: State, c: nat)
    requires |s.cpus| < UINT && Counted(s) && Moved(s, t, c) && s.cpus[c].ArchInit? && Done(t.cpus[c])
    requires t.ok == s.ok + {c} && t.initialized == (s.initialized + 1) % UINT
    requires t.rootSet == s.rootSet && c in s.rootSet
    ensures Counted(t)
  {
    assert c !in s.ok;
    SubsetCount(t.ok, UpTo(|s.cpus|));
  }

  lemma CountedKept(s: State, e: Event)
    requires Base(s)
    ensures Counted(Next(s, e))
  {
    hide Owners;
    hide MasterFirst;
    hide Counted;
    var t := Next(s, e);
    if e.c < |s.cpus| && t != s {
      if s.cpus[e.c].ArchInit? && e.err == 0 {
        CountedUp(s, t, e.c);
      } else {
        CountedSame(s, t, e.c);
      }
    }
  }

  predicate Writer(p: Pc) { p.Registering? || p.ArchInit? || p.Failed? || p.Late? }

  lemma ErrorsRead(s: State, t: State, c: nat)
    requires Errors(s) && Moved(s, t, c) && t.error == s.error && (t.master.None? ==> s.master.None?)
    requires t.ok == s.ok || (t.ok == s.ok + {c} && !t.cpus[c].Failed?)
    requires Writer(t.cpus[c]) ==> t.error == 0
    requires t.cpus[c].Failed? ==> t.cpus[c].err != 0 && c !in t.ok
    requires t.cpus[c].ArchInit? ==> c in t.rootSet
    requires s.rootSet <= t.rootSet && (t.cpus[c].Late? ==> t.cpus[c].master)
    ensures Errors(t)
  {
  }

  lemma ErrorsWritten(s: State, t: State, c: nat)
    requires Owners(s) && Errors(s) && Moved(s, t, c) && t.ok == s.ok && t.master.Some? && t.rootSet == s.rootSet
    requires Critical(s.cpus[c]) && !Writer(t.cpus[c])
    ensures Errors(t)
  {
    assert forall d: nat | d < |s.cpus| && d != c :: !Critical(s.cpus[d]);
    assert forall d: nat | d < |s.cpus| && d != c :: t.cpus[d] == s.cpus[d];
  }

  /** What the invariant says about one CPU. */
  lemma AtCpu(s: State, c: nat)
    requires Base(s) && c < |s.cpus|
    ensures Writer(s.cpus[c]) ==> s.error == 0
    ensures s.cpus[c].Failed? ==> s.cpus[c].err != 0
    ensures s.cpus[c].ArchInit? ==> c in s.rootSet
    ensures s.cpus[c].Late? ==> s.cpus[c].master && s.master == Some(c)
    ensures !Early(s.cpus[c]) ==> (s.cpus[c].master <==> s.master == Some(c))
    ensures !Done(s.cpus[c]) ==> c !in s.ok
    ensures !Early(s.cpus[c]) ==> s.master.Some? && s.master.value < |s.cpus| && !Early(s.cpus[s.master.value])
    ensures s.master.None? ==> s.error == 0
    ensures !s.cpus[c].Start? && s.master.Some? && Critical(s.cpus[s.master.value]) ==> s.master == Some(c)
  {
  }

  lemma ErrorsKept(s: State, e: Event)
    requires Base(s)
    ensures Errors(Next(s, e))
  {
    hide Owners;
    hide MasterFirst;
    hide Counted;
    hide Errors;
    var t := Next(s, e);
    if e.c < |s.cpus| && t != s {
      AtCpu(s, e.c);
      var p := s.cpus[e.c];
      if p.Locked? || p.Failed? || p.Late? {
        ErrorsWritten(s, t, e.c);
      } else {
        ErrorsRead(s, t, e.c);
      }
    }
  }

  lemma BaseKept(s: State, e: Event)
    requires Base(s)
    ensures Base(Next(s, e))
  {
    hide Owners;
    hide MasterFirst;
    hide Counted;
    hide Errors;
    OwnersKept(s, e);
    CountedKept(s, e);
    ErrorsKept(s, e);
  }

  // ---- How the CPUs end ----

  /** Before somebody sets the error, nobody has got past the barrier. */
  predicate NobodyOut(s: State) {
    forall c: nat | c < |s.cpus| ::
      !s.cpus[c].Leaving? && !s.cpus[c].Active? && !s.cpus[c].Restoring? && !s.cpus[c].Returned?
  }

  lemma RaiseBefore(s: State, c: nat)
    requires Base(s) && Ends(s) && c < |s.cpus| && |s.cpus| >= 2
    requires (s.cpus[c].Locked? && s.master.None?) || s.cpus[c].Failed? || s.cpus[c].Late?
    ensures NobodyOut(s) && s.ok != UpTo(|s.cpus|)
  {
    AtCpu(s, c);
    assert s.error == 0;
    if s.cpus[c].Late? {
      var d := if c == 0 then 1 else 0;
      assert s.cpus[d].Start?;
      assert d !in s.ok && d in UpTo(|s.cpus|);
    } else {
      assert c !in s.ok && c in UpTo(|s.cpus|);
    }
  }

  lemma EndsRaised(s: State, t: State, c: nat)
    requires NobodyOut(s) && Moved(s, t, c) && t.ok == s.ok && s.ok != UpTo(|s.cpus|) && Critical(t.cpus[c])
    ensures Ends(t)
  {
  }

  lemma SettledKept(s: State, t: State, c: nat)
    requires Settled(s) && Moved(s, t, c) && t.error == s.error && t.master == s.master && s.ok <= t.ok <= s.ok + {c}
    requires !Critical(s.cpus[c]) ==> !Critical(t.cpus[c])
    ensures Settled(t)
  {
  }

  /** Past the barrier without an error. */
  lemma Settles(s: State, c: nat)
    requires Base(s) && Ends(s) && c < |s.cpus| <= s.online && s.cpus[c].Tallying? && s.initialized >= s.online
    ensures Settled(s)
  {
    AtCpu(s, c);
    SubsetCount(s.ok, UpTo(|s.cpus|));
  }

  lemma EndsMoved(s: State, t: State, c: nat)
    requires Ends(s) && Moved(s, t, c) && t.error == s.error && t.master == s.master
    requires s.ok <= t.ok <= s.ok + {c} && (t.ok == s.ok || t.error == 0)
    requires !Critical(s.cpus[c]) && !s.cpus[c].Start? ==> !Critical(t.cpus[c])
    requires s.cpus[c].Start? ==> !Settled(s)
    requires t.cpus[c].Leaving? ==> t.error != 0 || Settled(s)
    requires t.cpus[c].Active? ==> Settled(s)
    requires t.cpus[c].Restoring? ==> t.error != 0
    requires t.cpus[c].Returned? ==> t.cpus[c].err == t.error != 0
    ensures Ends(t)
  {
    if Settled(s) {
      SettledKept(s, t, c);
    }
  }

  lemma EndsAt(s: State, c: nat)
    requires Base(s) && Ends(s) && c < |s.cpus|
    ensures s.cpus[c].Leaving? ==> s.error != 0 || Settled(s)
    ensures s.cpus[c].Restoring? ==> s.error != 0
    ensures !Done(s.cpus[c]) ==> !Settled(s)
  {
    AtCpu(s, c);
  }

  lemma EndsOutside(s: State, e: Event)
    requires Base(s) && Ends(s) && e.c < |s.cpus| <= s.online && Done(s.cpus[e.c]) && !Critical(s.cpus[e.c])
    requires Next(s, e) != s
    ensures Ends(Next(s, e))
  {
    hide Base;
    hide Ends;
    hide Settled;
    var c, t := e.c, Next(s, e);
    EndsAt(s, c);
    if s.cpus[c].Tallying? && s.initialized >= s.online {
      Settles(s, c);
    }
    EndsMoved(s, t, c);
  }

  lemma EndsInside(s: State, e: Event)
    requires Base(s) && Ends(s) && e.c < |s.cpus| && (Critical(s.cpus[e.c]) || s.cpus[e.c].Start?)
    requires !(s.cpus[e.c].Locked? && s.master.None?) && !s.cpus[e.c].Failed? && !s.cpus[e.c].Late?
    ensures Ends(Next(s, e))
  {
    hide Base;
    hide Ends;
    hide Settled;
    AtCpu(s, e.c);
    EndsAt(s, e.c);
    EndsMoved(s, Next(s, e), e.c);
  }

  lemma EndsKept(s: State, e: Event)
    requires Base(s) && Ends(s) && 2 <= |s.cpus| <= s.online
    ensures Ends(Next(s, e))
  {
    hide Base;
    hide Ends;
    hide Settled;
    hide NobodyOut;
    var c, t := e.c, Next(s, e);
    if c < |s.cpus| && t != s {
      var p := s.cpus[c];
      AtCpu(s, c);
      if (p.Locked? && s.master.None?) || p.Failed? || p.Late? {
        RaiseBefore(s, c);
        EndsRaised(s, t, c);
      } else if Done(p) && !Critical(p) {
        EndsOutside(s, e);
      } else {
        EndsInside(s, e);
      }
    }
  }

  // ---- Over whole runs ----

  lemma InitHolds(n: nat, online: nat, valid: set<nat>)
    requires n < UINT
    ensures var s := Init(n, online, valid); Base(s) && Ends(s)
  {
  }

  lemma {:induction false} RunHolds(n: nat, online: nat, valid: set<nat>, events: seq<Event>)
    requires n < UINT
    ensures var s := Play(Init(n, online, valid), events);
            Base(s) && |s.cpus| == n && s.online == online && (2 <= n <= online ==> Ends(s))
  {
    hide Base;
    hide Ends;
    hide Next;
    if events == [] {
      InitHolds(n, online, valid);
    } else {
      var i := |events| - 1;
      RunHolds(n, online, valid, events[..i]);
      var s := Play(Init(n, online, valid), events[..i]);
      BaseKept(s, events[i]);
      NextFixed(s, events[i]);
      if 2 <= n <= online {
        EndsKept(s, events[i]);
      }
    }
  }

  lemma NextFixed(s: State, e: Event)
    ensures |Next(s, e).cpus| == |s.cpus| && Next(s, e).online == s.online && Next(s, e).valid == s.valid
  {
  }

  /** At any time at most one CPU is in the critical section, and at most one is the master. */
  lemma OneMaster(n: nat, online: nat, valid: set<nat>, events: seq<Event>, a: nat, b: nat)
    requires a < n < UINT && b < n
    ensures var s := Play(Init(n, online, valid), events);
            && |s.cpus| == n
            && (Critical(s.cpus[a]) && Critical(s.cpus[b]) ==> a == b)
            && (!Early(s.cpus[a]) && !Early(s.cpus[b]) && s.cpus[a].master && s.cpus[b].master ==> a == b)
  {
    hide Next;
    hide Play;
    RunHolds(n, online, valid, events);
  }

  /**
   * Whoever runs the hypervisor does so after every CPU was initialized and belongs to the root cell, without error.
   */
  lemma ActiveTogether(n: nat, online: nat, valid: set<nat>, events: seq<Event>, c: nat)
    requires c < n < UINT && 2 <= n <= online
    requires var s := Play(Init(n, online, valid), events); c < |s.cpus| && s.cpus[c].Active?
    ensures var s := Play(Init(n, online, valid), events);
            n == online && s.error == 0 && s.initialized == n && s.rootSet == UpTo(n)
  {
    hide Next;
    hide Play;
    RunHolds(n, online, valid, events);
  }

  lemma Agreement(n: nat, online: nat, valid: set<nat>, events: seq<Event>)
    requires n < UINT && (n <= online || n <= 1)
    ensures Agree(Play(Init(n, online, valid), events))
  {
    hide Next;
    hide Play;
    RunHolds(n, online, valid, events);
    if n == 1 {
      SingleEnds(online, valid, events);
    }
  }

  /** How a CPU ends on its own: with the error variable. */
  predicate Errored(s: State) {
    forall c: nat | c < |s.cpus| ::
      && (s.cpus[c].Restoring? ==> s.error != 0) && (s.cpus[c].Returned? ==> s.cpus[c].err == s.error != 0)
      && (s.cpus[c].Active? ==> s.error == 0)
  }

  lemma {:induction false} SingleEnds(online: nat, valid: set<nat>, events: seq<Event>)
    ensures Errored(Play(Init(1, online, valid), events)) && |Play(Init(1, online, valid), events).cpus| == 1
  {
    if events != [] {
      SingleEnds(online, valid, events[..|events| - 1]);
    }
  }

  // ---- What the initialization functions returned ----

  /** The functions that can fail. */
  datatype Call = InitEarly | RegisterRootCpu | ArchCpuInit | InitLate

  datatype Result = Result(call: Call, err: int)

  /** The function that returns with this event, and what it returns. */
  function ResultOf(s: State, e: Event): Option<Result> {
    if e.c >= |s.cpus| then None else
    match s.cpus[e.c]
    case Locked => if s.master.None? then Some(Result(InitEarly, e.err)) else None
    case Registering(_) => Some(Result(RegisterRootCpu, if e.c in s.valid then 0 else -EINVAL))
    case ArchInit(_) => Some(Result(ArchCpuInit, e.err))
    case Late(_) => Some(Result(InitLate, e.err))
    case _ => None
  }

  /** What the i-th event of a run returns. */
  function ResultAt(s: State, events: seq<Event>, i: nat): Option<Result>
    requires i < |events|
  {
    ResultOf(Play(s, events[..i]), events[i])
  }

  /** CPU c was told that a function succeeded. */
  ghost predicate Succeeded(s: State, events: seq<Event>, c: nat, call: Call) {
    exists i :: 0 <= i < |events| && events[i].c == c && ResultAt(s, events, i) == Some(Result(call, 0))
  }

  predicate Fails(r: Option<Result>) { r.Some? && r.value.err != 0 }

  ghost predicate NoneFails(s: State, events: seq<Event>) {
    forall i | 0 <= i < |events| :: !Fails(ResultAt(s, events, i))
  }

  /** f is the first result of the run that is an error. */
  ghost predicate FirstError(s: State, events: seq<Event>, f: int) {
    exists i :: 0 <= i < |events| && ErrorAt(s, events, i, f)
  }

  ghost predicate ErrorAt(s: State, events: seq<Event>, i: nat, f: int)
    requires i < |events|
  {
    && Fails(ResultAt(s, events, i)) && ResultAt(s, events, i).value.err == f
    && forall j | 0 <= j < i :: !Fails(ResultAt(s, events, j))
  }

  lemma ResultsBefore(s: State, events: seq<Event>, k: nat)
    requires k <= |events|
    ensures forall i | 0 <= i < k :: ResultAt(s, events[..k], i) == ResultAt(s, events, i)
  {
    hide Play;
    hide ResultOf;
    assert forall i | 0 <= i < k :: events[..k][..i] == events[..i];
  }

  /** One event more. */
  lemma FirstErrorNext(s: State, events: seq<Event>)
    requires events != []
    ensures var k := |events| - 1; var r := ResultAt(s, events, k);
            && (NoneFails(s, events) <==> NoneFails(s, events[..k]) && !Fails(r))
            && (forall f :: FirstError(s, events[..k], f) ==> FirstError(s, events, f))
            && (NoneFails(s, events[..k]) && Fails(r) ==> FirstError(s, events, r.value.err))
  {
    hide ResultAt;
    var k := |events| - 1;
    ResultsBefore(s, events, k);
    forall f | FirstError(s, events[..k], f) ensures FirstError(s, events, f) {
      var i :| 0 <= i < k && ErrorAt(s, events[..k], i, f);
      assert ErrorAt(s, events, i, f);
    }
    if NoneFails(s, events[..k]) && Fails(ResultAt(s, events, k)) {
      assert ErrorAt(s, events, k, ResultAt(s, events, k).value.err);
    }
  }

  /** The error variable holds the first error, unless the CPU that met it is about to write it. */
  ghost predicate Told(s0: State, events: seq<Event>, s: State) {
    && (s.error != 0 ==> FirstError(s0, events, s.error))
    && (s.error == 0 ==> NoneFails(s0, events) || exists c: nat :: c < |s.cpus| && s.cpus[c].Failed?)
    && (forall c: nat | c < |s.cpus| && s.cpus[c].Failed? :: FirstError(s0, events, s.cpus[c].err))
  }

  /** A function that returns finds no error so far. */
  lemma NoErrorYet(s0: State, events: seq<Event>, s: State, e: Event)
    requires Base(s) && Told(s0, events, s) && ResultOf(s, e).Some?
    ensures s.error == 0 && NoneFails(s0, events) && forall c: nat | c < |s.cpus| :: !s.cpus[c].Failed?
  {
    hide NoneFails;
    hide FirstError;
    AtCpu(s, e.c);
    forall c: nat | c < |s.cpus| ensures !s.cpus[c].Failed? {
      assert Critical(s.cpus[e.c]) && s.lock == Some(e.c);
    }
  }

  lemma ToldStep(s0: State, before: seq<Event>, after: seq<Event>, s: State, e: Event)
    requires Base(s) && Told(s0, before, s)
    requires NoneFails(s0, after) <==> NoneFails(s0, before) && !Fails(ResultOf(s, e))
    requires forall f :: FirstError(s0, before, f) ==> FirstError(s0, after, f)
    requires NoneFails(s0, before) && Fails(ResultOf(s, e)) ==> FirstError(s0, after, ResultOf(s, e).value.err)
    ensures Told(s0, after, Next(s, e))
  {
    hide NoneFails;
    hide FirstError;
    hide Base;
    if ResultOf(s, e).Some? {
      NoErrorYet(s0, before, s, e);
      assert Next(s, e).error == 0 && Fails(ResultOf(s, e)) ==> Next(s, e).cpus[e.c].Failed?;
    } else if e.c < |s.cpus| {
      ToldQuiet(s0, before, after, s, e);
    }
  }

  lemma ToldQuiet(s0: State, before: seq<Event>, after: seq<Event>, s: State, e: Event)
    requires Base(s) && Told(s0, before, s) && e.c < |s.cpus| && ResultOf(s, e).None?
    requires NoneFails(s0, after) <==> NoneFails(s0, before)
    requires forall f :: FirstError(s0, before, f) ==> FirstError(s0, after, f)
    ensures Told(s0, after, Next(s, e))
  {
    hide NoneFails;
    hide FirstError;
    hide Base;
    AtCpu(s, e.c);
    var t := Next(s, e);
    if !s.cpus[e.c].Failed? {
      assert t.error == s.error && !t.cpus[e.c].Failed?;
      if c: nat :| c < |s.cpus| && s.cpus[c].Failed? {
        assert t.cpus[c].Failed?;
      }
    }
  }

  lemma {:induction false} RunTold(n: nat, online: nat, valid: set<nat>, events: seq<Event>)
    requires n < UINT
    ensures var s0 := Init(n, online, valid); Told(s0, events, Play(s0, events))
  {
    hide Base;
    hide Next;
    hide Told;
    var s0 := Init(n, online, valid);
    if events == [] {
      ToldFirst(s0);
    } else {
      var k := |events| - 1;
      RunTold(n, online, valid, events[..k]);
      RunHolds(n, online, valid, events[..k]);
      FirstErrorNext(s0, events);
      ToldStep(s0, events[..k], events, Play(s0, events[..k]), events[k]);
    }
  }

  lemma ToldFirst(s0: State)
    requires s0.error == 0 && forall c: nat | c < |s0.cpus| :: s0.cpus[c].Start?
    ensures Told(s0, [], s0)
  {
  }

  /** Every error that a CPU returns is the first error of the run. */
  lemma ReturnsFirst(n: nat, online: nat, valid: set<nat>, events: seq<Event>, c: nat)
    requires c < n < UINT && (n <= online || n == 1)
    requires var s := Play(Init(n, online, valid), events); c < |s.cpus| && s.cpus[c].Returned?
    ensures var s0 := Init(n, online, valid); FirstError(s0, events, Play(s0, events).cpus[c].err)
  {
    hide Next;
    hide Play;
    hide FirstError;
    RunHolds(n, online, valid, events);
    RunTold(n, online, valid, events);
    if n == 1 {
      SingleEnds(online, valid, events);
    }
  }

  // ---- What was done before a CPU activates ----

  /** Behind cpu_init, and behind init_late. */
  predicate PastLate(p: Pc) { Done(p) && !p.Inited? && !p.Late? }

  /** What is known of the calls from where the CPUs are. */
  ghost predicate History(s0: State, events: seq<Event>, s: State) {
    && (forall c: nat | c < |s.cpus| && (s.cpus[c].ArchInit? || c in s.ok) :: Succeeded(s0, events, c, RegisterRootCpu))
    && (forall c: nat | c in s.ok :: Succeeded(s0, events, c, ArchCpuInit))
    && (s.master.Some? && s.error == 0 ==> Succeeded(s0, events, s.master.value, InitEarly))
    && (s.master.Some? && s.master.value < |s.cpus| && PastLate(s.cpus[s.master.value]) && s.error == 0 ==>
          Succeeded(s0, events, s.master.value, InitLate))
  }

  predicate Returns(r: Option<Result>, e: Event, c: nat, call: Call) { e.c == c && r == Some(Result(call, 0)) }

  lemma SucceededNext(s: State, events: seq<Event>, c: nat, call: Call)
    requires events != []
    ensures var k := |events| - 1;
            Succeeded(s, events[..k], c, call) || Returns(ResultAt(s, events, k), events[k], c, call) ==>
              Succeeded(s, events, c, call)
  {
    hide ResultAt;
    var k := |events| - 1;
    ResultsBefore(s, events, k);
    if Succeeded(s, events[..k], c, call) {
      var i :| 0 <= i < k && events[..k][i].c == c && ResultAt(s, events[..k], i) == Some(Result(call, 0));
      assert events[i].c == c && ResultAt(s, events, i) == Some(Result(call, 0));
    }
  }

  lemma HistoryStep(s0: State, before: seq<Event>, after: seq<Event>, s: State, e: Event)
    requires Base(s) && History(s0, before, s)
    requires forall c: nat, call ::
               Succeeded(s0, before, c, call) || Returns(ResultOf(s, e), e, c, call) ==> Succeeded(s0, after, c, call)
    ensures History(s0, after, Next(s, e))
  {
    hide Succeeded;
    hide Base;
    if e.c < |s.cpus| {
      AtCpu(s, e.c);
      OkStep(s, e);
      MasterStep(s, e);
    }
  }

  /** Who is initialized after a step. */
  lemma OkStep(s: State, e: Event)
    requires e.c < |s.cpus|
    ensures forall c: nat | c in Next(s, e).ok :: c in s.ok || (c == e.c && Returns(ResultOf(s, e), e, c, ArchCpuInit))
    ensures forall c: nat | c in Next(s, e).ok :: c in s.ok || (c == e.c && s.cpus[c].ArchInit?)
    ensures forall c: nat | c < |s.cpus| && Next(s, e).cpus[c].ArchInit? ::
              s.cpus[c].ArchInit? || Returns(ResultOf(s, e), e, c, RegisterRootCpu)
  {
  }

  /** What a step means for the master, while there is no error. */
  lemma MasterStep(s: State, e: Event)
    requires e.c < |s.cpus| && (s.cpus[e.c].Late? ==> s.master == Some(e.c))
    requires !Early(s.cpus[e.c]) ==> (s.cpus[e.c].master <==> s.master == Some(e.c))
    ensures var t := Next(s, e); t.master.Some? && t.error == 0 ==>
              || Returns(ResultOf(s, e), e, t.master.value, InitEarly)
              || (t.master == s.master && (s.error == 0 || s.cpus[e.c].Late?))
    ensures var t := Next(s, e);
            t.master.Some? && t.master.value < |t.cpus| && PastLate(t.cpus[t.master.value]) && t.error == 0 ==>
              || Returns(ResultOf(s, e), e, t.master.value, InitLate)
              || (t.master == s.master && PastLate(s.cpus[t.master.value]) && s.error == 0)
  {
  }

  lemma {:induction false} RunHistory(n: nat, online: nat, valid: set<nat>, events: seq<Event>)
    requires n < UINT
    ensures var s0 := Init(n, online, valid); History(s0, events, Play(s0, events))
  {
    hide Base;
    hide Next;
    hide History;
    hide Succeeded;
    var s0 := Init(n, online, valid);
    if events == [] {
      HistoryFirst(s0);
    } else {
      var k := |events| - 1;
      RunHistory(n, online, valid, events[..k]);
      RunHolds(n, online, valid, events[..k]);
      forall c: nat, call
        ensures Succeeded(s0, events[..k], c, call)
                || Returns(ResultOf(Play(s0, events[..k]), events[k]), events[k], c, call) ==>
                  Succeeded(s0, events, c, call)
      {
        SucceededNext(s0, events, c, call);
      }
      HistoryStep(s0, events[..k], events, Play(s0, events[..k]), events[k]);
    }
  }

  lemma HistoryFirst(s0: State)
    requires s0.ok == {} && s0.master.None? && forall c: nat | c < |s0.cpus| :: s0.cpus[c].Start?
    ensures History(s0, [], s0)
  {
  }

  /**
   * Whoever activates does so after a run without an error: no function has failed, every CPU was registered and
   * initialized, and one CPU has done the early and the late initialization.
   */
  lemma ActiveClean(n: nat, online: nat, valid: set<nat>, events: seq<Event>, c: nat)
    requires c < n < UINT && 2 <= n <= online
    requires var s := Play(Init(n, online, valid), events); c < |s.cpus| && s.cpus[c].Active?
    ensures var s0 := Init(n, online, valid);
            && NoneFails(s0, events)
            && (forall d: nat | d < n ::
                  Succeeded(s0, events, d, RegisterRootCpu) && Succeeded(s0, events, d, ArchCpuInit))
            && exists m: nat :: m < n && Succeeded(s0, events, m, InitEarly) && Succeeded(s0, events, m, InitLate)
  {
    hide Next;
    hide Play;
    hide Succeeded;
    hide NoneFails;
    hide FirstError;
    RunHolds(n, online, valid, events);
    RunTold(n, online, valid, events);
    RunHistory(n, online, valid, events);
    var s := Play(Init(n, online, valid), events);
    assert Settled(s) && forall d: nat | d < n :: d in s.ok;
    assert PastLate(s.cpus[s.master.value]);
  }

  // ---- With more CPUs than the header says, they can disagree ----

  lemma {:induction false} PlayAppend(s: State, a: seq<Event>, b: seq<Event>)
    ensures Play(s, a + b) == Play(Play(s, a), b)
    decreases |b|
  {
    hide Next;
    if b == [] {
      assert a + b == a;
    } else {
      var i := |b| - 1;
      assert (a + b)[..|a + b| - 1] == a + b[..i];
      PlayAppend(s, a, b[..i]);
    }
  }

  /** CPUs 0 .. c are through their initialization without error, the others have not started. */
  predicate Ready(s: State, n: nat, c: nat) {
    && |s.cpus| == n && c <= n && s.error == 0 && s.lock.None? && s.initialized == c
    && (forall d: nat | d < n :: d in s.valid)
    && s.master == (if c == 0 then None else Some(0))
    && (forall d: nat | d < n :: s.cpus[d] == if d < c then Waiting(d == 0) else Start)
  }

  /** Some run leads from s to t. */
  ghost predicate Leads(s: State, t: State) {
    exists events: seq<Event> :: Play(s, events) == t
  }

  lemma Step(s: State, e: Event, t: State)
    requires Next(s, e) == t
    ensures Leads(s, t)
  {
    hide Next;
    assert [e][..0] == [];
    assert Play(s, [e]) == t;
  }

  lemma Joined(s: State, t: State, u: State)
    requires Leads(s, t) && Leads(t, u)
    ensures Leads(s, u)
  {
    hide Next;
    var a :| Play(s, a) == t;
    var b :| Play(t, b) == u;
    PlayAppend(s, a, b);
  }

  lemma Steps(s: State, e: Event, t: State, u: State)
    requires Next(s, e) == t && Leads(t, u)
    ensures Leads(s, u)
  {
    hide Next;
    Step(s, e, t);
    Joined(s, t, u);
  }

  /** CPU c takes the lock and gets as far as arch_cpu_init. */
  function Admitted(s: State, c: nat): State
    requires c < |s.cpus|
  {
    To(s.(lock := Some(c), master := if s.master.None? then Some(c) else s.master, rootSet := s.rootSet + {c}),
       c, ArchInit(s.master.None?))
  }

  lemma Admit(s: State, c: nat)
    requires c < |s.cpus| && s.cpus[c].Start? && s.lock.None? && s.error == 0 && c in s.valid
    ensures Leads(s, Admitted(s, c))
  {
    var m, e := s.master.None?, Event(c, 0);
    var held := s.(lock := Some(c), master := if m then Some(c) else s.master);
    Step(To(held, c, Registering(m)), e, Admitted(s, c));
    Steps(To(held, c, Checking(m)), e, To(held, c, Registering(m)), Admitted(s, c));
    Steps(To(s.(lock := Some(c)), c, Locked), e, To(held, c, Checking(m)), Admitted(s, c));
    Steps(s, e, To(s.(lock := Some(c)), c, Locked), Admitted(s, c));
  }

  /** From arch_cpu_init on without an error. */
  lemma Finish(s: State, c: nat)
    requires c < |s.cpus| && s.cpus[c].ArchInit? && s.error == 0
    ensures var u := s.(lock := None, initialized := (s.initialized + 1) % UINT, ok := s.ok + {c});
            Leads(s, To(u, c, Waiting(s.cpus[c].master)))
  {
    var m, e := s.cpus[c].master, Event(c, 0);
    var v := s.(initialized := (s.initialized + 1) % UINT, ok := s.ok + {c});
    var u := To(v.(lock := None), c, Waiting(m));
    Step(To(v, c, Unlocking(m)), e, u);
    if m {
      Steps(To(v, c, Late(m)), e, To(v, c, Unlocking(m)), u);
      Steps(To(v, c, Inited(m)), e, To(v, c, Late(m)), u);
    } else {
      Steps(To(v, c, Inited(m)), e, To(v, c, Unlocking(m)), u);
    }
    Steps(s, e, To(v, c, Inited(m)), u);
  }

  lemma Join(s: State, n: nat, c: nat) returns (t: State)
    requires Ready(s, n, c) && c < n < UINT
    ensures Leads(s, t) && Ready(t, n, c + 1) && t.online == s.online
  {
    hide Leads;
    Admit(s, c);
    var a := Admitted(s, c);
    Finish(a, c);
    t := To(a.(lock := None, initialized := (a.initialized + 1) % UINT, ok := a.ok + {c}), c,
            Waiting(a.cpus[c].master));
    Joined(s, a, t);
  }

  lemma {:induction false} JoinAll(n: nat, online: nat, m: nat) returns (t: State)
    requires m <= n < UINT
    ensures Leads(Init(n, online, UpTo(n)), t) && Ready(t, n, m) && t.online == online
    decreases m
  {
    hide Leads;
    hide Ready;
    if m == 0 {
      t := NothingYet(n, online);
    } else {
      var s := JoinAll(n, online, m - 1);
      t := Join(s, n, m - 1);
      Joined(Init(n, online, UpTo(n)), s, t);
    }
  }

  lemma NothingYet(n: nat, online: nat) returns (t: State)
    ensures Leads(Init(n, online, UpTo(n)), t) && Ready(t, n, 0) && t.online == online
  {
    t := Init(n, online, UpTo(n));
    assert Play(t, []) == t;
  }

  /** CPU c passes the barrier. */
  lemma Pass(s: State, c: nat)
    requires c < |s.cpus| && s.cpus[c] == Waiting(c == 0) && s.error == 0 && s.initialized >= s.online
    ensures Leads(s, To(s, c, Active(c == 0)))
  {
    var m, e := c == 0, Event(c, 0);
    Step(To(s, c, Leaving(m)), e, To(s, c, Active(m)));
    Steps(To(s, c, Tallying(m)), e, To(s, c, Leaving(m)), To(s, c, Active(m)));
    Steps(s, e, To(s, c, Tallying(m)), To(s, c, Active(m)));
  }

  /** CPUs 0 .. k have activated, the others wait in the barrier, which is open. */
  predicate Activated(s: State, n: nat, k: nat) {
    && |s.cpus| == n && s.error == 0 && s.initialized >= s.online
    && forall d: nat | d < n :: s.cpus[d] == if d < k then Active(d == 0) else Waiting(d == 0)
  }

  /** If nothing fails and all CPUs that the header announces come, they can all activate. */
  lemma {:induction false} AllActivate(n: nat, k: nat) returns (t: State)
    requires k <= n < UINT
    ensures Leads(Init(n, n, UpTo(n)), t) && Activated(t, n, k)
    decreases k
  {
    hide Leads;
    if k == 0 {
      t := JoinAll(n, n, n);
    } else {
      var s := AllActivate(n, k - 1);
      Pass(s, k - 1);
      t := To(s, k - 1, Active(k - 1 == 0));
      Joined(Init(n, n, UpTo(n)), s, t);
    }
  }

  /** From arch_cpu_init on with an error, not as master. */
  lemma Fail(s: State, c: nat, err: int)
    requires c < |s.cpus| && s.cpus[c] == ArchInit(false) && s.error == 0 && err != 0
    ensures Leads(s, To(s.(lock := None, error := err), c, Returned(false, err)))
  {
    var e := Event(c, err);
    var v := s.(error := err);
    var w := v.(lock := None);
    var u := To(w, c, Returned(false, err));
    Step(To(w, c, Restoring(false)), e, u);
    Steps(To(w, c, Leaving(false)), e, To(w, c, Restoring(false)), u);
    Steps(To(w, c, Waiting(false)), e, To(w, c, Leaving(false)), u);
    Steps(To(v, c, Unlocking(false)), e, To(w, c, Waiting(false)), u);
    Steps(To(v, c, Inited(false)), e, To(v, c, Unlocking(false)), u);
    Steps(To(s, c, Failed(false, err)), e, To(v, c, Inited(false)), u);
    Steps(s, e, To(s, c, Failed(false, err)), u);
  }

  /** One CPU runs the hypervisor, another one returns. */
  lemma Disagreement(n: nat, online: nat) returns (t: State)
    requires online < n < UINT && 2 <= n
    ensures Leads(Init(n, online, UpTo(n)), t) && !Agree(t)
  {
    hide Leads;
    var m := if online == 0 then 1 else online;
    var s := JoinAll(n, online, m);
    Pass(s, 0);
    var p := To(s, 0, Active(true));
    Admit(p, m);
    var a := Admitted(p, m);
    Fail(a, m, -EINVAL);
    t := To(a.(lock := None, error := -EINVAL), m, Returned(false, -EINVAL));
    var i := Init(n, online, UpTo(n));
    Joined(i, s, p);
    Joined(i, p, a);
    Joined(i, a, t);
    assert !SameEnd(t.cpus[0], t.cpus[m]);
  }

  /** The CPUs agree in every run if and only if there are no more of them than the header says, or just one. */
  lemma AgreesIff(n: nat, online: nat)
    requires n < UINT
    ensures AlwaysAgree(n, online) <==> n <= online || n <= 1
  {
    hide Agree;
    hide Next;
    if n <= online || n <= 1 {
      forall valid: set<nat>, events: seq<Event> ensures Agree(Play(Init(n, online, valid), events)) {
        Agreement(n, online, valid, events);
      }
    } else {
      var t := Disagreement(n, online);
      var events :| Play(Init(n, online, UpTo(n)), events) == t;
      assert !Agree(Play(Init(n, online, UpTo(n)), events));
    }
  }
}
