/**
 * Stopping, parking, resetting and flushing a CPU on x86: the target CPU's event handler and the requests of all
 * other CPUs, as a state machine over their steps in any order.
 */
module StopProtocol {

  /** Where the target is; all but Guest and Halt are places in x86_handle_events. */
  datatype Pc =
    | Guest          // runs its guest (or parks in it)
    | Lock1          // before it takes the control lock
    | Head           // at the head of the loop, reads init_signaled
    | Test           // has seen init_signaled, reads stop_cpu
    | SetStopped     // before cpu_stopped = true
    | Unlock1        // before it gives the lock back in order to wait
    | Wait           // spins on stop_cpu
    | Shut           // has left the wait, reads shutdown_cpu
    | Lock2          // before it takes the lock again
    | ClearStopped   // before cpu_stopped = false
    | TakeSipi       // before it looks at the SIPI vector
    | Again          // at the end of the loop, reads init_signaled
    | Flush          // behind the loop
    | Unlock2        // before it gives the lock back for good
    | Return         // behind the lock
    | Halt           // shut down

  /** A call of arch_suspend_cpu; `era` and `secure` are what held when it set stop_cpu, `back` is that it returned. */
  datatype Call = Call(era: nat, secure: bool, back: bool)

  /**
   * The target's per-CPU variables. The code does not have: `stale`, set by a commit and cleared by the invalidation;
   * `era`, the number of times stop_cpu was cleared; `calls`, all suspend calls so far.
   */
  datatype State = State(
    pc: Pc, stop: bool, stopped: bool, init: bool, waitSipi: bool, sipi: int, vector: int, failed: bool,
    shutdown: bool, flush: bool, stale: bool, era: nat, calls: seq<Call>)

  predicate TargetHolds(s: State) {
    match s.pc
    case Head | Test | SetStopped | Unlock1 | ClearStopped | TakeSipi | Again | Flush | Unlock2 => true
    case _ => false
  }

  datatype Event =
    | Target          // the target moves
    | Mark            // arch_suspend_cpu: sets stop_cpu and reads cpu_stopped under the lock
    | Spin(k: nat)    // suspend call k reads cpu_stopped again
    | Resume          // arch_resume_cpu: clears stop_cpu
    | Park            // arch_park_cpu sets init_signaled; a Resume follows
    | Reset           // arch_reset_cpu sets the SIPI vector; a Resume follows
    | ShutDown        // arch_shutdown_cpu sets shutdown_cpu
    | SendInit        // x86_send_init_sipi
    | SendSipi(v: nat)
    | Commit          // arch_config_commit asks for a flush
    | Panic           // arch_panic_halt on the target
    | Revive          // cell_start or cell_set_loadable clears `failed`

  const BSP_SIPI: int := 0x100

  /** Where the target goes from where it is. */
  function NextPc(s: State): Pc {
    match s.pc
    case Guest => Lock1
    case Lock1 => Head
    case Head => if s.init then Test else SetStopped
    case Test => if s.stop then SetStopped else Flush
    case SetStopped => Unlock1
    case Unlock1 => Wait
    case Wait => if s.stop then Wait else Shut
    case Shut => if s.shutdown then Halt else Lock2
    case Lock2 => ClearStopped
    case ClearStopped => TakeSipi
    case TakeSipi => Again
    case Again => if s.init then Head else Flush
    case Flush => Unlock2
    case Unlock2 => Return
    case Return => Guest
    case Halt => Halt
  }

  /** x86_enter_wait_for_sipi in the loop: an INIT is served before anything else. */
  predicate EntersWait(s: State) { s.pc == Test && !s.stop }

  predicate TakesVector(s: State) { s.pc == TakeSipi && s.sipi >= 0 && !s.failed }

  predicate Flushes(s: State) { s.pc == Flush && s.flush }

  /** One step of the target. */
  function Step(s: State): State {
    s.(pc := NextPc(s),
       stopped := s.pc == SetStopped || (s.stopped && s.pc != ClearStopped),
       init := s.init && !EntersWait(s),
       waitSipi := EntersWait(s) || (s.waitSipi && !TakesVector(s)),
       sipi := if s.pc == TakeSipi && s.sipi >= 0 then -1 else s.sipi,
       vector := if s.pc == Guest || EntersWait(s) then -1 else if TakesVector(s) then s.sipi else s.vector,
       flush := s.flush && !Flushes(s),
       stale := s.stale && !Flushes(s))
  }

  /** Whether a request takes effect: the locked ones need the lock. */
  predicate Possible(s: State, e: Event) {
    match e
    case Target => true
    case Mark => !TargetHolds(s)
    case Spin(k) => k < |s.calls| && s.stopped
    case SendInit => !TargetHolds(s) && !s.waitSipi
    case SendSipi(_) => !TargetHolds(s) && s.waitSipi
    case Panic => s.pc == Guest
    case _ => true
  }

  /** The effect of a request on the target's variables. */
  function Ask(s: State, e: Event): State {
    s.(stop := e.Mark? || (s.stop && !e.Resume?),
       era := if e.Resume? then s.era + 1 else s.era,
       init := e.Park? || e.SendInit? || (s.init && !e.Panic?),
       waitSipi := s.waitSipi || e.Panic?,
       sipi := if e.Reset? then BSP_SIPI else if e.SendSipi? then e.v else s.sipi,
       failed := e.Panic? || (s.failed && !e.Revive?),
       shutdown := s.shutdown || e.ShutDown?,
       flush := s.flush || e.Commit?,
       stale := s.stale || e.Commit?,
       calls := if e.Mark? then s.calls + [Call(s.era, Secure(s), s.stopped)]
                else if e.Spin? && e.k < |s.calls| then s.calls[e.k := s.calls[e.k].(back := true)]
                else s.calls)
  }

  function Next(s: State, e: Event): State {
    if !Possible(s, e) then s else if e.Target? then Step(s) else Ask(s, e)
  }

  /** Between leaving the wait and taking the lock again, with nothing that would keep the target from its guest. */
  predicate Exposed(s: State) {
    !s.init && (s.pc == Lock2 || (s.pc == Shut && !s.shutdown))
  }

  predicate Secure(s: State) { !Exposed(s) }

  function Init(): State {
    State(Guest, false, false, false, false, -1, -1, false, false, false, false, 0, [])
  }

  function Play(s: State, events: seq<Event>): State {
    if events == [] then s else Next(Play(s, events[..|events| - 1]), events[|events| - 1])
  }

  // ---- The invariant ----

  /** With stop_cpu set, the target cannot get from here to its guest. */
  predicate Held(s: State) {
    match s.pc
    case Head | Test | SetStopped | Unlock1 | Wait | Halt => true
    case Shut => s.shutdown || s.init
    case Lock2 | ClearStopped | TakeSipi | Again => s.init
    case _ => false
  }

  /** On its way into the handler: cpu_stopped is not set, so suspend calls spin. */
  predicate Coming(s: State) { s.pc == Return || s.pc == Guest || s.pc == Lock1 }

  predicate Live(s: State, c: Call) { c.secure && c.era == s.era }

  predicate CallHolds(s: State, c: Call) {
    Live(s, c) ==> s.stop && (Held(s) || (Coming(s) && !c.back))
  }

  predicate Flags(s: State) {
    && (s.stopped <==> s.pc in {Unlock1, Wait, Shut, Lock2, ClearStopped, Halt})
    && (s.pc == Test ==> s.init) && (s.pc != Guest && s.vector >= 0 ==> !s.waitSipi) && (s.stale ==> s.flush)
  }

  predicate Inv(s: State) {
    && Flags(s)
    && (forall k | 0 <= k < |s.calls| :: s.calls[k].era <= s.era && CallHolds(s, s.calls[k]))
  }

  lemma FlagsKept(s: State)
    requires Flags(s)
    ensures Flags(Step(s))
  {
  }

  lemma CallKept(s: State, c: Call)
    requires CallHolds(s, c)
    ensures CallHolds(Step(s), c)
  {
  }

  lemma TargetKeeps(s: State)
    requires Inv(s)
    ensures Inv(Step(s))
  {
    hide Flags;
    hide CallHolds;
    hide Step;
    FlagsKept(s);
    StepLeaves(s);
    forall k | 0 <= k < |s.calls| ensures CallHolds(Step(s), s.calls[k]) {
      CallKept(s, s.calls[k]);
    }
  }

  lemma StepLeaves(s: State)
    ensures Step(s).calls == s.calls && Step(s).era == s.era && Step(s).stop == s.stop
  {
  }

  lemma MarkKeeps(s: State)
    requires Inv(s)
    ensures Inv(Next(s, Mark))
  {
    var t := Next(s, Mark);
    forall k | 0 <= k < |t.calls| ensures CallHolds(t, t.calls[k]) {
      assert k < |s.calls| ==> CallHolds(s, s.calls[k]);
    }
  }

  lemma OtherKeeps(s: State, e: Event)
    requires Inv(s) && !e.Target? && !e.Mark?
    ensures Inv(Next(s, e))
  {
    var t := Next(s, e);
    forall k | 0 <= k < |t.calls| ensures t.calls[k].era <= t.era && CallHolds(t, t.calls[k]) {
      assert CallHolds(s, s.calls[k]);
    }
  }

  lemma {:induction false} InvHolds(s: State, events: seq<Event>)
    requires Inv(s)
    ensures Inv(Play(s, events))
  {
    hide Inv;
    hide Next;
    hide Step;
    if events != [] {
      var i := |events| - 1;
      InvHolds(s, events[..i]);
      var r, e := Play(s, events[..i]), events[i];
      match e
      case Target => TargetKeeps(r); NextTarget(r);
      case Mark => MarkKeeps(r);
      case _ => OtherKeeps(r, e);
    }
  }

  lemma NextTarget(s: State)
    ensures Next(s, Target) == Step(s)
  {
  }

  // ---- Stopping ----

  /**
   * Over every run: a suspend call that did not fall into the exposed window and has returned keeps the target out of
   * its guest until somebody clears stop_cpu.
   */
  lemma StaysStopped(events: seq<Event>, k: nat)
    requires var s := Play(Init(), events); k < |s.calls| && s.calls[k].back && Live(s, s.calls[k])
    ensures var s := Play(Init(), events); s.stop && s.pc != Guest && s.pc != Return
  {
    hide Play;
    InvHolds(Init(), events);
    var s := Play(Init(), events);
    assert CallHolds(s, s.calls[k]);
  }

  /** Whatever happens after a suspend call that starts in s: once it has returned, the target is not in its guest. */
  ghost predicate SuspendWorks(s: State) {
    forall events: seq<Event> | (forall i | 0 <= i < |events| :: !events[i].Resume?) ::
      var t := Play(Next(s, Mark), events);
      t.pc == Guest ==> |s.calls| < |t.calls| && !t.calls[|s.calls|].back
  }

  lemma {:induction false} CallStays(s: State, events: seq<Event>, k: nat)
    requires k < |s.calls| && forall i | 0 <= i < |events| :: !events[i].Resume?
    ensures var t := Play(s, events);
            && t.era == s.era && k < |t.calls|
            && t.calls[k].era == s.calls[k].era && t.calls[k].secure == s.calls[k].secure
  {
    hide Next;
    if events != [] {
      var i := |events| - 1;
      CallStays(s, events[..i], k);
      NextCall(Play(s, events[..i]), events[i], k);
    }
  }

  lemma NextCall(s: State, e: Event, k: nat)
    requires k < |s.calls| && !e.Resume?
    ensures var t := Next(s, e);
            && t.era == s.era && k < |t.calls|
            && t.calls[k].era == s.calls[k].era && t.calls[k].secure == s.calls[k].secure
  {
    hide Step;
    StepLeaves(s);
  }

  lemma WorksIfSecure(s: State)
    requires Inv(s) && !TargetHolds(s) && Secure(s)
    ensures SuspendWorks(s)
  {
    var m, k := Next(s, Mark), |s.calls|;
    forall events: seq<Event> | forall i | 0 <= i < |events| :: !events[i].Resume?
      ensures var t := Play(m, events); t.pc == Guest ==> k < |t.calls| && !t.calls[k].back
    {
      MarkKeeps(s);
      InvHolds(m, events);
      CallStays(m, events, k);
      var t := Play(m, events);
      assert CallHolds(t, t.calls[k]);
    }
  }

  lemma {:induction false} PlayFirst(s: State, n: nat)
    ensures Play(s, seq(n, _ => Target)) == Steps(s, n)
  {
    hide Step;
    if n > 0 {
      PlayFirst(s, n - 1);
      assert seq(n, _ => Target)[..n - 1] == seq(n - 1, _ => Target);
    }
  }

  function Steps(s: State, n: nat): State {
    if n == 0 then s else Step(Steps(s, n - 1))
  }

  /** From the exposed window the target walks into its guest, although the call has returned at once. */
  lemma FailsIfExposed(s: State)
    requires Inv(s) && Exposed(s)
    ensures !SuspendWorks(s)
  {
    var m, k := Next(s, Mark), |s.calls|;
    var n := Distance(s.pc);
    WalksOut(m, n);
    PlayFirst(m, n);
    var events := seq(n, _ => Target);
    var t := Play(m, events);
    assert t.pc == Guest && t.calls[k].back;
  }

  /** How many steps the target is from its guest. */
  function Distance(pc: Pc): int {
    match pc
    case Shut => 8 case Lock2 => 7 case ClearStopped => 6 case TakeSipi => 5 case Again => 4
    case Flush => 3 case Unlock2 => 2 case Return => 1 case Guest => 0
    case _ => -1
  }

  lemma WalkStep(s: State)
    requires Distance(s.pc) > 0 && !s.init && !(s.pc == Shut && s.shutdown)
    ensures var t := Step(s); Distance(t.pc) == Distance(s.pc) - 1 && !t.init && t.calls == s.calls && t.pc != Shut
  {
  }

  lemma {:induction false} WalksOut(m: State, n: nat)
    requires Exposed(m) && n <= Distance(m.pc)
    ensures var t := Steps(m, n);
            Distance(t.pc) == Distance(m.pc) - n && !t.init && t.calls == m.calls && (n > 0 ==> t.pc != Shut)
  {
    hide Step;
    if n > 0 {
      WalksOut(m, n - 1);
      WalkStep(Steps(m, n - 1));
    }
  }

  /** A suspend call does its work if and only if it does not start in the exposed window. */
  lemma SuspendWorksIff(s: State)
    requires Inv(s) && !TargetHolds(s)
    ensures SuspendWorks(s) <==> !Exposed(s)
  {
    hide SuspendWorks;
    if Exposed(s) {
      FailsIfExposed(s);
    } else {
      WorksIfSecure(s);
    }
  }

  // ---- INIT and SIPI, flushing ----

  /** A suspend call has returned, was secure, and stop_cpu has not been cleared since: what a caller can rely on. */
  ghost predicate Suspended(s: State) {
    exists k :: 0 <= k < |s.calls| && s.calls[k].back && Live(s, s.calls[k])
  }

  lemma SuspendedIsHeld(s: State)
    requires Inv(s) && Suspended(s)
    ensures s.stop && Held(s)
  {
    var k :| 0 <= k < |s.calls| && s.calls[k].back && Live(s, s.calls[k]);
    assert CallHolds(s, s.calls[k]);
  }

  lemma InitInv()
    ensures Inv(Init())
  {
  }

  /**
   * The event came while the target was at one of these places, and it has not left them since; that is, it came too
   * late for this pass.
   */
  ghost predicate Late(events: seq<Event>, e: Event, pcs: set<Pc>) {
    exists i :: 0 <= i < |events| && events[i] == e && StaysIn(events, i, pcs)
  }

  ghost predicate StaysIn(events: seq<Event>, i: nat, pcs: set<Pc>) {
    forall j | i <= j <= |events| :: Play(Init(), events[..j]).pc in pcs
  }

  lemma LateNext(events: seq<Event>, e: Event, pcs: set<Pc>)
    requires events != []
    ensures var k := |events| - 1;
            Late(events, e, pcs) <==>
            && Play(Init(), events).pc in pcs
            && (Late(events[..k], e, pcs) || (events[k] == e && Play(Init(), events[..k]).pc in pcs))
  {
    hide Play;
    hide StaysIn;
    var k := |events| - 1;
    var before := events[..k];
    forall i | 0 <= i <= k
      ensures StaysIn(events, i, pcs) <==> StaysIn(before, i, pcs) && Play(Init(), events).pc in pcs
    {
      StaysOn(events, i, pcs);
    }
    if Late(events, e, pcs) {
      var i :| 0 <= i < |events| && events[i] == e && StaysIn(events, i, pcs);
      assert i < k ==> before[i] == e;
      StaysLast(before, i, pcs);
    }
    if Play(Init(), events).pc in pcs {
      if Late(before, e, pcs) {
        var i :| 0 <= i < k && before[i] == e && StaysIn(before, i, pcs);
        assert events[i] == e;
      } else {
        StaysLast(before, k, pcs);
      }
    }
  }

  lemma StaysOn(events: seq<Event>, i: nat, pcs: set<Pc>)
    requires i < |events|
    ensures StaysIn(events, i, pcs) <==> StaysIn(events[..|events| - 1], i, pcs) && Play(Init(), events).pc in pcs
  {
    hide Play;
    var before := events[..|events| - 1];
    assert events[..|events|] == events;
    assert forall j | 0 <= j < |events| :: before[..j] == events[..j];
  }

  lemma StaysLast(events: seq<Event>, i: nat, pcs: set<Pc>)
    requires i <= |events|
    ensures StaysIn(events, i, pcs) ==> Play(Init(), events).pc in pcs
    ensures i == |events| && Play(Init(), events).pc in pcs ==> StaysIn(events, i, pcs)
  {
    hide Play;
    assert events[..|events|] == events;
  }

  lemma NothingLate(events: seq<Event>, e: Event, pcs: set<Pc>)
    requires forall i | 0 <= i < |events| && events[i] == e :: Play(Init(), events[..i]).pc !in pcs
    ensures !Late(events, e, pcs)
  {
    hide Play;
  }

  /** Behind the loop, and behind the flush. */
  const BehindLoop := {Flush, Unlock2}
  const BehindFlush := {Unlock2, Return, Guest}

  lemma NextInit(s: State, e: Event)
    requires Next(s, e).pc in BehindLoop && Flags(s)
    ensures Next(s, e).init <==> s.pc in BehindLoop && (s.init || e.Park?)
  {
    hide Step;
    hide Ask;
    if e.Target? {
      StepInit(s);
    } else {
      AskInit(s, e);
    }
  }

  lemma StepInit(s: State)
    requires Step(s).pc in BehindLoop && Flags(s)
    ensures Step(s).init <==> s.pc in BehindLoop && s.init
  {
  }

  lemma AskInit(s: State, e: Event)
    ensures Ask(s, e).pc == s.pc
    ensures s.pc in BehindLoop && Possible(s, e) && !e.Target? ==> (Ask(s, e).init <==> s.init || e.Park?)
  {
  }

  lemma {:induction false} PendingIff(events: seq<Event>)
    ensures Play(Init(), events).pc in BehindLoop ==> (Play(Init(), events).init <==> Late(events, Park, BehindLoop))
  {
    hide Next;
    hide Flags;
    hide Late;
    InitInv();
    if events != [] {
      var k := |events| - 1;
      PendingIff(events[..k]);
      InvHolds(Init(), events[..k]);
      LateNext(events, Park, BehindLoop);
      if Play(Init(), events).pc in BehindLoop {
        NextInit(Play(Init(), events[..k]), events[k]);
        LateInside(events[..k], Park, BehindLoop);
      }
    }
  }

  lemma LateInside(events: seq<Event>, e: Event, pcs: set<Pc>)
    ensures Late(events, e, pcs) ==> Play(Init(), events).pc in pcs
  {
    hide Play;
    assert events[..|events|] == events;
  }

  /**
   * On every return INIT has won: a vector is returned only if the CPU does not wait for SIPI; and an INIT is pending
   * when the lock is given up if and only if the CPU was parked after it had left the loop of this pass.
   */
  lemma InitWins(events: seq<Event>)
    ensures var s := Play(Init(), events); s.pc == Unlock2 || s.pc == Return ==> s.vector >= 0 ==> !s.waitSipi
    ensures var s := Play(Init(), events); s.pc == Unlock2 ==> (s.init <==> Late(events, Park, BehindLoop))
  {
    hide Play;
    hide Late;
    InitInv();
    InvHolds(Init(), events);
    PendingIff(events);
  }

  /** If the CPU is parked only while it is suspended, no INIT is pending there. */
  lemma ParksWhileSuspended(events: seq<Event>)
    requires forall i | 0 <= i < |events| :: events[i].Park? ==> Suspended(Play(Init(), events[..i]))
    ensures var s := Play(Init(), events); s.pc == Unlock2 ==> !s.init
  {
    hide Play;
    hide Suspended;
    hide Inv;
    hide Late;
    InitInv();
    forall i | 0 <= i < |events| && events[i] == Park ensures Play(Init(), events[..i]).pc !in BehindLoop {
      InvHolds(Init(), events[..i]);
      SuspendedIsHeld(Play(Init(), events[..i]));
    }
    NothingLate(events, Park, BehindLoop);
    InitWins(events);
  }

  lemma NextStale(s: State, e: Event)
    requires Next(s, e).pc in BehindFlush && Flags(s)
    ensures Next(s, e).stale <==> s.pc in BehindFlush && (s.stale || e.Commit?)
  {
  }

  /**
   * Behind its flush and in its guest, the target has stale translations if and only if a commit came after the flush
   * of its last pass.
   */
  lemma {:induction false} FlushedBeforeGuest(events: seq<Event>)
    ensures var s := Play(Init(), events); s.pc in BehindFlush ==> (s.stale <==> Late(events, Commit, BehindFlush))
  {
    hide Next;
    hide Flags;
    hide Late;
    InitInv();
    if events == [] {
      NothingLate(events, Commit, BehindFlush);
    } else {
      var k := |events| - 1;
      FlushedBeforeGuest(events[..k]);
      InvHolds(Init(), events[..k]);
      LateNext(events, Commit, BehindFlush);
      if Play(Init(), events).pc in BehindFlush {
        NextStale(Play(Init(), events[..k]), events[k]);
        LateInside(events[..k], Commit, BehindFlush);
      }
    }
  }

  /** If commits come only while the target is suspended, it never runs its guest with stale translations. */
  lemma CommitsWhileSuspended(events: seq<Event>)
    requires forall i | 0 <= i < |events| :: events[i].Commit? ==> Suspended(Play(Init(), events[..i]))
    ensures var s := Play(Init(), events); s.pc == Guest ==> !s.stale
  {
    hide Play;
    hide Suspended;
    hide Inv;
    hide Late;
    InitInv();
    forall i | 0 <= i < |events| && events[i] == Commit ensures Play(Init(), events[..i]).pc !in BehindFlush {
      InvHolds(Init(), events[..i]);
      SuspendedIsHeld(Play(Init(), events[..i]));
    }
    NothingLate(events, Commit, BehindFlush);
    FlushedBeforeGuest(events);
  }

  // ---- What becomes of INIT, SIPI and resets ----

  /** How many steps a target that nobody stops or shuts down is from its next return. */
  function Left(pc: Pc, init: bool): int {
    match pc
    case Guest => if init then 6 else 13
    case Lock1 => if init then 5 else 12
    case Head => if init then 4 else 11
    case Test => 3
    case SetStopped => LeftOfLoop(init) + 7
    case Unlock1 => LeftOfLoop(init) + 6
    case Wait => LeftOfLoop(init) + 5
    case Shut => LeftOfLoop(init) + 4
    case Lock2 => LeftOfLoop(init) + 3
    case ClearStopped => LeftOfLoop(init) + 2
    case TakeSipi => LeftOfLoop(init) + 1
    case Again => LeftOfLoop(init)
    case Flush => 2
    case Unlock2 => 1
    case Return => 0
    case _ => -1
  }

  function LeftOfLoop(init: bool): int { if init then 5 else 3 }

  /** What a return leaves: the vector, whether the CPU waits for SIPI, and what is in the mailbox. */
  datatype Answer = Answer(vector: int, waits: bool, mailbox: int)

  /** What the look into the mailbox makes of it. */
  function Looked(s: State, vector: int): Answer {
    if s.sipi < 0 then Answer(vector, s.waitSipi, s.sipi)
    else if s.failed then Answer(vector, s.waitSipi, -1)
    else Answer(s.sipi, false, -1)
  }

  /** How such a target will return. */
  function Fate(s: State): Answer {
    match s.pc
    case Flush | Unlock2 | Return => Answer(s.vector, s.waitSipi, s.sipi)
    case Test => Answer(-1, true, s.sipi)
    case Again => if s.init then Answer(-1, true, s.sipi) else Answer(s.vector, s.waitSipi, s.sipi)
    case Guest | Lock1 | Head =>
      if s.init then Answer(-1, true, s.sipi) else Looked(s, if s.pc == Guest then -1 else s.vector)
    case _ => if s.init then Answer(-1, true, Looked(s, s.vector).mailbox) else Looked(s, s.vector)
  }

  lemma FateStep(s: State)
    requires Left(s.pc, s.init) > 0 && !s.stop && !s.shutdown
    ensures var t := Step(s);
            && Left(t.pc, t.init) == Left(s.pc, s.init) - 1 && Fate(t) == Fate(s)
            && !t.stop && !t.shutdown && t.failed == s.failed && (!s.init ==> !t.init)
  {
  }

  lemma {:induction false} FateHolds(s: State, n: nat)
    requires n <= Left(s.pc, s.init) && !s.stop && !s.shutdown
    ensures var t := Steps(s, n);
            && Left(t.pc, t.init) == Left(s.pc, s.init) - n && Fate(t) == Fate(s)
            && !t.stop && !t.shutdown && t.failed == s.failed && (!s.init ==> !t.init)
  {
    hide Step;
    hide Fate;
    hide Left;
    if n > 0 {
      FateHolds(s, n - 1);
      FateStep(Steps(s, n - 1));
    }
  }

  /** The state at the next return. */
  function NextReturn(s: State): State { if Left(s.pc, s.init) < 0 then s else Steps(s, Left(s.pc, s.init)) }

  /** Between now and then the target is neither back nor in its guest. */
  lemma NotBackYet(s: State, m: nat)
    requires m < Left(s.pc, s.init) && !s.stop && !s.shutdown
    ensures Steps(s, m).pc != Return && (m > 0 ==> Steps(s, m).pc != Guest)
  {
    hide Step;
    hide Fate;
    FateHolds(s, m);
    if m > 0 {
      FateHolds(s, m - 1);
      OnlyFromReturn(Steps(s, m - 1));
    }
  }

  lemma FirstStep(s: State)
    ensures Steps(s, 0) == s
  {
  }

  lemma OnlyFromReturn(s: State)
    ensures Step(s).pc == Guest ==> s.pc == Return
  {
  }

  /** Nobody moves but the target: it returns with its fate, and on the way it is neither back nor in its guest. */
  lemma ReturnsSo(s: State)
    requires !s.stop && !s.shutdown && s.pc != Halt
    ensures var t := NextReturn(s);
            && t.pc == Return && Answer(t.vector, t.waitSipi, t.sipi) == Fate(s)
            && !t.stop && !t.shutdown && t.failed == s.failed && (!s.init ==> !t.init)
  {
    hide Steps;
    hide Looked;
    FateHolds(s, Left(s.pc, s.init));
  }

  /** Where the next pass starts that can see what happens now: a CPU that is about to return has to come back first. */
  function Onward(s: State): State { if s.pc == Return then Step(s) else s }

  /**
   * A SIPI to a CPU that waits for it, and that nobody stops or shuts down: the next return that comes after a look
   * into the mailbox hands out its vector and ends the wait, if and only if no INIT is pending and the CPU has not
   * failed. Either way the mailbox is empty then, but for an INIT that is served before the look.
   */
  lemma SipiIff(s: State, v: nat)
    requires Inv(s) && !TargetHolds(s) && s.waitSipi && !s.stop && !s.shutdown && s.pc != Halt
    ensures var t := NextReturn(Onward(Next(s, SendSipi(v))));
            && t.pc == Return && (t.vector == v && !t.waitSipi <==> !s.init && !s.failed)
            && (!s.init ==> t.sipi == -1)
  {
    hide NextReturn;
    hide Steps;
    ReturnsSo(Onward(Next(s, SendSipi(v))));
  }

  /** It is handed out once: the return after that has none. */
  lemma SipiOnce(s: State, v: nat)
    requires Inv(s) && !TargetHolds(s) && s.waitSipi && !s.stop && !s.shutdown && s.pc != Halt && !s.init && !s.failed
    ensures var t := NextReturn(Onward(Next(s, SendSipi(v))));
            var u := NextReturn(Step(t));
            u.pc == Return && u.vector == -1 && !u.waitSipi
  {
    hide NextReturn;
    hide Steps;
    var t := NextReturn(Onward(Next(s, SendSipi(v))));
    ReturnsSo(Onward(Next(s, SendSipi(v))));
    ReturnsSo(Step(t));
  }

  /** An INIT to a CPU that does not wait for SIPI: the next return has no vector, and the CPU waits for SIPI. */
  lemma InitServed(s: State)
    requires Inv(s) && !TargetHolds(s) && !s.waitSipi && !s.stop && !s.shutdown && s.pc != Halt
    ensures var t := NextReturn(Onward(Next(s, SendInit))); t.pc == Return && t.vector == -1 && t.waitSipi
  {
    hide NextReturn;
    hide Steps;
    ReturnsSo(Onward(Next(s, SendInit)));
  }

  /** A second INIT, while the CPU waits for SIPI, does not take the vector away from the SIPI that follows. */
  lemma InitThenSipi(s: State, v: nat)
    requires Inv(s) && !TargetHolds(s) && s.waitSipi && !s.stop && !s.shutdown && s.pc != Halt && !s.init && !s.failed
    ensures var t := NextReturn(Onward(Next(Next(s, SendInit), SendSipi(v))));
            t.pc == Return && t.vector == v && !t.waitSipi
  {
    hide NextReturn;
    hide Steps;
    ReturnsSo(Onward(Next(Next(s, SendInit), SendSipi(v))));
  }

  /** A SIPI that nobody waits for changes nothing. */
  lemma SipiIgnored(s: State, v: nat)
    requires !TargetHolds(s) && !s.waitSipi && !s.stop && !s.shutdown && s.pc != Halt && s.sipi < 0
    ensures var t, u := NextReturn(Onward(Next(s, SendSipi(v)))), NextReturn(Onward(s));
            t.pc == Return && t.vector == u.vector && t.waitSipi == u.waitSipi && t.sipi < 0
  {
    hide NextReturn;
    hide Steps;
    ReturnsSo(Onward(Next(s, SendSipi(v))));
    ReturnsSo(Onward(s));
  }

  lemma MailboxStep(s: State, e: Event)
    requires !e.Reset? && (s.pc == Again ==> s.sipi < 0)
    ensures Next(s, e).pc == Again ==> Next(s, e).sipi < 0
  {
  }

  /** SIPIs are sent under the lock, so none falls between the look at the vector and the end of the loop. */
  lemma {:induction false} MailboxEmpty(events: seq<Event>)
    requires forall i | 0 <= i < |events| :: !events[i].Reset?
    ensures var s := Play(Init(), events); s.pc == Again ==> s.sipi < 0
  {
    hide Next;
    if events != [] {
      var i := |events| - 1;
      MailboxEmpty(events[..i]);
      MailboxStep(Play(Init(), events[..i]), events[i]);
    }
  }

  lemma FailedStep(s: State, e: Event)
    requires s.failed && s.waitSipi && (s.pc != Guest ==> s.vector == -1) && !e.Revive?
    ensures var t := Next(s, e); t.failed && t.waitSipi && (t.pc != Guest ==> t.vector == -1)
  {
  }

  /** A CPU that was halted by a panic waits for SIPI, and no vector is handed out until its cell is revived. */
  lemma {:induction false} PanicStays(s: State, events: seq<Event>)
    requires s.pc == Guest && forall i | 0 <= i < |events| :: !events[i].Revive?
    ensures var t := Play(Next(s, Panic), events); t.failed && t.waitSipi && (t.pc != Guest ==> t.vector == -1)
  {
    hide Next;
    if events == [] {
      PanicHere(s);
    } else {
      var k := |events| - 1;
      PanicStays(s, events[..k]);
      FailedStep(Play(Next(s, Panic), events[..k]), events[k]);
    }
  }

  lemma PanicHere(s: State)
    requires s.pc == Guest
    ensures var t := Next(s, Panic); t.pc == Guest && t.failed && t.waitSipi && !t.init
  {
  }

  // ---- Starting and shutting down ----

  /** cell_start on a suspended CPU, failed or not: it gets the start vector if and only if no INIT is pending. */
  lemma CellStartIff(s: State)
    requires Inv(s) && s.stop && Held(s) && !s.shutdown && s.pc != Halt
    ensures var t := NextReturn(Next(Next(Next(s, Revive), Reset), Resume));
            t.pc == Return && (t.vector == BSP_SIPI && !t.waitSipi <==> !s.init)
  {
    hide NextReturn;
    hide Steps;
    ReturnsSo(Next(Next(Next(s, Revive), Reset), Resume));
  }

  /** How many steps a target that has shutdown_cpu set and is not stopped is from its halt; -1 if it returns first. */
  function ToHalt(pc: Pc, init: bool): int {
    match pc
    case Head => if init then -1 else 5
    case SetStopped => 4 case Unlock1 => 3 case Wait => 2 case Shut => 1 case Halt => 0
    case _ => -1
  }

  lemma HaltStep(s: State)
    requires ToHalt(s.pc, s.init) > 0 && s.shutdown && !s.stop
    ensures var t := Step(s); ToHalt(t.pc, t.init) == ToHalt(s.pc, s.init) - 1 && t.shutdown && !t.stop
  {
  }

  lemma {:induction false} HaltHolds(s: State, n: nat)
    requires n <= ToHalt(s.pc, s.init) && s.shutdown && !s.stop
    ensures var t := Steps(s, n); ToHalt(t.pc, t.init) == ToHalt(s.pc, s.init) - n && t.shutdown && !t.stop
  {
    hide Step;
    hide ToHalt;
    if n > 0 {
      HaltHolds(s, n - 1);
      HaltStep(Steps(s, n - 1));
    }
  }

  /** arch_shutdown_cpu, once its suspend call has returned. */
  function ShutDownNow(s: State): State { Next(Next(s, ShutDown), Resume) }

  /** Behind its test of init_signaled, or past its wait with INIT pending, a held target will serve the INIT first. */
  predicate ServesInit(s: State) { s.init && s.pc in {Head, Test, Lock2, ClearStopped, TakeSipi, Again} }

  /** The target halts, and until then it is neither back nor in its guest. */
  ghost predicate Halts(s: State, n: nat) {
    Steps(s, n).pc == Halt && forall m: nat | m < n :: Steps(s, m).pc != Return && Steps(s, m).pc != Guest
  }

  /** A held CPU that is shut down halts without running its guest again, unless it is about to serve an INIT. */
  lemma HaltsIff(s: State)
    requires Inv(s) && s.stop && Held(s)
    ensures !ServesInit(s) <==> exists n: nat :: Halts(ShutDownNow(s), n)
  {
    hide Steps;
    hide Halts;
    var r := ShutDownNow(s);
    if !ServesInit(s) {
      HaltsSoon(r);
    } else {
      forall n: nat ensures !Halts(r, n) {
        ServedFirst(r, n);
      }
    }
  }

  lemma HaltsSoon(r: State)
    requires r.shutdown && !r.stop && ToHalt(r.pc, r.init) >= 0
    ensures Halts(r, ToHalt(r.pc, r.init))
  {
    hide Steps;
    var n := ToHalt(r.pc, r.init);
    HaltHolds(r, n);
    forall m: nat | m < n ensures Steps(r, m).pc != Return && Steps(r, m).pc != Guest {
      HaltHolds(r, m);
    }
  }

  /** From there the target is back before it could halt. */
  lemma ServedFirst(r: State, n: nat)
    requires ServesInit(r) && !r.stop
    ensures !Halts(r, n)
  {
    hide Steps;
    var k: nat := Left(r.pc, true);
    ComesBack(r, k);
    if n <= k {
      ComesBack(r, n);
    }
  }

  /** With INIT pending and behind the wait, shutdown_cpu does not matter. */
  lemma {:induction false} ComesBack(r: State, n: nat)
    requires ServesInit(r) && !r.stop && n <= Left(r.pc, true)
    ensures var t := Steps(r, n); Returning(t) && Left(t.pc, t.init) == Left(r.pc, true) - n
  {
    hide Step;
    hide Left;
    hide Returning;
    ComingBack(r);
    if n > 0 {
      ComesBack(r, n - 1);
      BackStep(Steps(r, n - 1));
    }
  }

  predicate Returning(t: State) { !t.stop && (ServesInit(t) || t.pc in {Flush, Unlock2, Return}) }

  lemma ComingBack(r: State)
    requires ServesInit(r) && !r.stop
    ensures Returning(r) && r.init
  {
  }

  lemma BackStep(s: State)
    requires Returning(s) && Left(s.pc, s.init) > 0
    ensures Returning(Step(s)) && Left(Step(s).pc, Step(s).init) == Left(s.pc, s.init) - 1
  {
  }

  predicate Circles(s: State) {
    s.stop && Held(s) && !s.shutdown && s.pc != Halt && (s.init || s.sipi >= 0) && (s.pc == Test ==> s.init)
  }

  /** While stop_cpu is set, a held target only goes in circles. */
  lemma {:induction false} HeldHolds(s: State, m: nat)
    requires Circles(s)
    ensures var t := Steps(s, m); Circles(t) && Fate(t).vector == Fate(s).vector && t.init == s.init
  {
    hide Step;
    hide Fate;
    hide Circles;
    if m > 0 {
      HeldHolds(s, m - 1);
      HeldStep(Steps(s, m - 1));
    }
  }

  lemma HeldStep(s: State)
    requires Circles(s)
    ensures var t := Step(s); Circles(t) && Fate(t).vector == Fate(s).vector && t.init == s.init
  {
  }

  /**
   * arch_reset_cpu on a suspended target, which may move between the two stores: its next return hands out the start
   * vector if and only if no INIT was pending and the CPU had not failed (or had that vector already).
   */
  lemma ResetStartsIff(s: State, m: nat, n: nat)
    requires Inv(s) && s.stop && Held(s) && !s.shutdown && s.pc != Halt
    requires var r := Next(Steps(Next(s, Reset), m), Resume); n == Left(r.pc, r.init)
    ensures var t := Steps(Next(Steps(Next(s, Reset), m), Resume), n);
            t.pc == Return && (t.vector == BSP_SIPI <==> !s.init && (!s.failed || s.vector == BSP_SIPI))
    ensures forall l: nat | l < n ::
              var t := Steps(Next(Steps(Next(s, Reset), m), Resume), l); t.pc != Return && t.pc != Guest
  {
    hide Steps;
    hide Step;
    var q := Steps(Next(s, Reset), m);
    HeldHolds(Next(s, Reset), m);
    var r := Next(q, Resume);
    FateHolds(r, n);
    forall l: nat | l < n ensures Steps(r, l).pc != Return && Steps(r, l).pc != Guest {
      NotBackYet(r, l);
      FirstStep(r);
    }
  }

  // ---- Runs from the start ----

  /** Some run leads from s to t. */
  ghost predicate Leads(s: State, t: State) { exists events: seq<Event> :: Play(s, events) == t }

  lemma {:induction false} PlayAppend(s: State, a: seq<Event>, b: seq<Event>)
    ensures Play(s, a + b) == Play(Play(s, a), b)
    decreases |b|
  {
    hide Next;
    if b == [] {
      assert a + b == a;
    } else {
      var i := |b| - 1;
      assert (a + b)[..|a + b| - 1] == a + b[..i];
      PlayAppend(s, a, b[..i]);
    }
  }

  /** The run goes on with one event. */
  lemma Then(s: State, t: State, e: Event)
    requires Leads(s, t)
    ensures Leads(s, Next(t, e))
  {
    hide Next;
    var a :| Play(s, a) == t;
    PlayAppend(s, a, [e]);
    assert [e][..0] == [];
    assert Play(t, [e]) == Next(t, e);
  }

  lemma {:induction false} StepsLead(i: State, s: State, n: nat)
    requires Leads(i, s)
    ensures Leads(i, Steps(s, n))
  {
    hide Leads;
    hide Step;
    if n > 0 {
      StepsLead(i, s, n - 1);
      Moves(i, Steps(s, n - 1), Steps(s, n));
    }
  }

  lemma Moves(s: State, t: State, u: State)
    requires Leads(s, t) && Step(t) == u
    ensures Leads(s, u)
  {
    hide Leads;
    hide Step;
    Then(s, t, Target);
    NextTarget(t);
  }

  /** A step that only moves on. */
  lemma MovesOn(i: State, s: State, pc: Pc)
    requires Leads(i, s) && s.pc in {Lock1, Head, Unlock1, Wait, Shut, Lock2, Again, Unlock2} && NextPc(s) == pc
    ensures Leads(i, s.(pc := pc))
  {
    hide Leads;
    Moves(i, s, s.(pc := pc));
  }

  /** A target in its guest that finds stop_cpu set and no INIT goes to its wait. */
  lemma GoesToWait(i: State, s: State)
    requires Leads(i, s) && s.pc == Guest && s.stop && !s.init
    ensures Leads(i, s.(pc := Wait, vector := -1, stopped := true))
  {
    hide Leads;
    Moves(i, s, s.(pc := Lock1, vector := -1));
    ReachesWait(i, s.(pc := Lock1, vector := -1));
  }

  lemma ReachesWait(i: State, s: State)
    requires Leads(i, s) && s.pc == Lock1 && s.stop && !s.init
    ensures Leads(i, s.(pc := Wait, stopped := true))
  {
    hide Leads;
    hide Step;
    MovesOn(i, s, Head);
    MovesOn(i, s.(pc := Head), SetStopped);
    StopsHere(i, s.(pc := SetStopped));
    MovesOn(i, s.(pc := Unlock1, stopped := true), Wait);
  }

  lemma StopsHere(i: State, s: State)
    requires Leads(i, s) && (s.pc == SetStopped || s.pc == ClearStopped)
    ensures Leads(i, s.(pc := NextPc(s), stopped := s.pc == SetStopped))
  {
    hide Leads;
    Moves(i, s, s.(pc := NextPc(s), stopped := s.pc == SetStopped));
  }

  /** From the window through the rest of the loop, with nothing pending. */
  lemma LeavesLoop(i: State, s: State)
    requires Leads(i, s) && s.pc == Shut && !s.shutdown && !s.init && s.sipi < 0
    ensures Leads(i, s.(pc := Flush, stopped := false))
  {
    hide Leads;
    hide Step;
    MovesOn(i, s, Lock2);
    MovesOn(i, s.(pc := Lock2), ClearStopped);
    StopsHere(i, s.(pc := ClearStopped));
    var a := s.(pc := TakeSipi, stopped := false);
    FindsNoVector(i, a);
    MovesOn(i, a.(pc := Again), Flush);
  }

  lemma FindsNoVector(i: State, s: State)
    requires Leads(i, s) && s.pc == TakeSipi && s.sipi < 0
    ensures Leads(i, s.(pc := Again))
  {
    hide Leads;
    Moves(i, s, s.(pc := Again));
  }

  /** A first suspend call has returned; the target waits. */
  lemma FirstStop() returns (s: State)
    ensures Leads(Init(), s) && Inv(s) && Suspended(s)
    ensures s.pc == Wait && s.stop && s.stopped && !s.init && !s.shutdown && !s.failed && s.sipi < 0 && s.vector == -1
  {
    hide Leads;
    var i := Init();
    assert Play(i, []) == i;
    StartsHere(i);
    var a := Next(i, Mark);
    Then(i, i, Mark);
    GoesToWait(i, a);
    var b := a.(pc := Wait, vector := -1, stopped := true);
    Then(i, b, Spin(0));
    s := Next(b, Spin(0));
    assert s.calls[0].back && Live(s, s.calls[0]);
    LeadsInv(s);
  }

  lemma StartsHere(i: State)
    requires Play(i, []) == i
    ensures Leads(i, i)
  {
  }

  lemma LeadsInv(s: State)
    requires Leads(Init(), s)
    ensures Inv(s)
  {
    hide Inv;
    var events :| Play(Init(), events) == s;
    InitInv();
    InvHolds(Init(), events);
  }

  /** Resumed, the target leaves its wait: the exposed window is reached, and a suspend call there does not work. */
  lemma WindowReached() returns (s: State)
    ensures Leads(Init(), s) && s.pc == Shut && s.sipi < 0 && Exposed(s) && !SuspendWorks(s)
  {
    hide Leads;
    hide SuspendWorks;
    hide Play;
    var w := FirstStop();
    var a := Next(w, Resume);
    Then(Init(), w, Resume);
    s := a.(pc := Shut);
    Moves(Init(), a, s);
    LeadsInv(s);
    FailsIfExposed(s);
  }

  /** A target that is parked after such a call gives up its lock with INIT pending. */
  lemma InitPending() returns (s: State)
    ensures Leads(Init(), s) && s.pc == Unlock2 && s.init
  {
    hide Leads;
    hide SuspendWorks;
    hide Play;
    var x := WindowReached();
    var a := Next(x, Mark);
    Then(Init(), x, Mark);
    LeavesLoop(Init(), a);
    var b := a.(pc := Flush, stopped := false);
    var c := Next(b, Park);
    Then(Init(), b, Park);
    s := Step(c);
    Moves(Init(), c, s);
  }

  /** arch_park_cpu, then arch_resume_cpu, while the target does not move. */
  function Parked(s: State): State { Next(Next(s, Park), Resume) }

  lemma ParkLeads(i: State, s: State)
    requires Leads(i, s)
    ensures Leads(i, Parked(s))
  {
    hide Leads;
    hide Next;
    Then(i, s, Park);
    Then(i, Next(s, Park), Resume);
  }

  /** Parked and suspended again before it has moved, the target returns without the start vector of its reset. */
  lemma StartLost() returns (s: State)
    ensures Leads(Init(), s) && Suspended(s) && s.pc == Wait && !s.failed
    ensures var t := Steps(Next(Next(s, Reset), Resume), Left(Wait, true)); t.pc == Return && t.vector == -1
  {
    hide Leads;
    hide Play;
    hide Steps;
    var w := FirstStop();
    var a := Parked(w);
    ParkLeads(Init(), w);
    Then(Init(), a, Mark);
    s := Next(a, Mark);
    var k := |a.calls|;
    assert s.calls[k].back && Live(s, s.calls[k]);
    FateHolds(Next(Next(s, Reset), Resume), Left(Wait, true));
  }

  /** As in a creation: a suspended target is parked and returns before the commit. Its translations are stale. */
  lemma CommitMissed() returns (w: State, s: State)
    ensures Leads(Init(), w) && Suspended(w) && Leads(Init(), s)
    ensures s == Next(Steps(Parked(w), Left(Wait, true) + 1), Commit) && s.pc == Guest && s.stale
  {
    hide Leads;
    hide Play;
    hide Steps;
    hide Next;
    hide Inv;
    hide Suspended;
    w := FirstStop();
    ParkLeads(Init(), w);
    ParkedIs(w);
    var n := Left(Wait, true);
    StepsLead(Init(), Parked(w), n + 1);
    var t := Steps(Parked(w), n + 1);
    Then(Init(), t, Commit);
    s := Next(t, Commit);
    ReturnsAfter(Parked(w), n);
    CommitStales(t);
  }

  lemma ParkedIs(s: State)
    ensures Parked(s).pc == s.pc && Parked(s).init && !Parked(s).stop && Parked(s).shutdown == s.shutdown
  {
  }

  lemma CommitStales(s: State)
    ensures Next(s, Commit).pc == s.pc && Next(s, Commit).stale
  {
  }

  lemma ReturnsAfter(s: State, n: nat)
    requires n == Left(s.pc, s.init) && !s.stop && !s.shutdown
    ensures Steps(s, n + 1).pc == Guest
  {
    hide Fate;
    FateHolds(s, n);
  }
}
