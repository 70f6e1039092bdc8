/** The shutdown hypercall: every root CPU calls it, the first one lets the cells vote for all. */
module ShutdownVote {
  import opened CpuSets

  const SHUTDOWN_NONE: int := 0
  const SHUTDOWN_STARTED: int := 1
  const EPERM: int := 1

  /** What a call does to the hardware: suspend and release a cell's CPU, shut the machine's protection down. */
  datatype Action = Suspend(cpu: nat) | Release(cpu: nat) | CloseRoot

  function Suspends(cpus: seq<nat>): seq<Action> { seq(|cpus|, i requires 0 <= i < |cpus| => Suspend(cpus[i])) }

  function Releases(cpus: seq<nat>): seq<Action> { seq(|cpus|, i requires 0 <= i < |cpus| => Release(cpus[i])) }

  lemma NoneYet(bits: CpuSet, except: int)
    ensures Suspends([]) == [] && Releases([]) == [] && Members(bits, |bits| + 1, except) == []
  {
  }

  lemma OneMore(cpus: seq<nat>, c: nat)
    ensures Suspends(cpus + [c]) == Suspends(cpus) + [Suspend(c)]
    ensures Releases(cpus + [c]) == Releases(cpus) + [Release(c)]
  {
  }

  /** The actions that close the given cells: each is suspended as a whole before its CPUs are released. */
  function Closing(cells: seq<CpuSet>, caller: nat): seq<Action> {
    if cells == [] then []
    else
      var k := |cells| - 1;
      Closing(cells[..k], caller) + Suspends(Members(cells[k], 0, caller)) + Releases(Members(cells[k], 0, -1))
  }

  predicate AllApprove(answers: seq<bool>) { false !in answers }

  function Decision(answers: seq<bool>): (d: int)
    ensures d == SHUTDOWN_STARTED || d == -EPERM
  {
    if AllApprove(answers) then SHUTDOWN_STARTED else -EPERM
  }

  /** The states after the root CPUs were given a decision. */
  function Spread(root: CpuSet, state: seq<int>, d: int): (r: seq<int>)
    requires |root| == |state|
    ensures |r| == |state|
  {
    seq(|state|, i requires 0 <= i < |state| => if root[i] then d else state[i])
  }

  datatype Outcome = Outcome(ret: int, state: seq<int>, actions: seq<Action>)

  predicate Decides(root: CpuSet, state: seq<int>, cpu: nat) {
    cpu < |state| == |root| && root[cpu] && state[cpu] == SHUTDOWN_NONE
  }

  /** What one call returns and changes. */
  function Call(root: CpuSet, cells: seq<CpuSet>, state: seq<int>, cpu: nat, answers: seq<bool>): (o: Outcome)
    requires cpu < |state| == |root|
    ensures |o.state| == |state|
  {
    if !root[cpu] then Outcome(-EPERM, state, [])
    else
      var decides := state[cpu] == SHUTDOWN_NONE;
      var seen := if decides then Spread(root, state, Decision(answers)) else state;
      Outcome(if seen[cpu] == SHUTDOWN_STARTED then 0 else seen[cpu], seen[cpu := SHUTDOWN_NONE],
              if decides && AllApprove(answers) then Closing(cells, cpu) + [CloseRoot] else [])
  }

  class Hypervisor {
    /** The CPUs of the root cell and of the other cells, in the order of the cell list. */
    const root: CpuSet
    const cells: seq<CpuSet>
    const shutdownState: array<int>
    var actions: seq<Action>

    ghost predicate Valid() reads this { |root| == shutdownState.Length }

    constructor (root: CpuSet, cells: seq<CpuSet>)
      ensures Valid() && fresh(shutdownState) && this.root == root && this.cells == cells && actions == []
      ensures forall i | 0 <= i < shutdownState.Length :: shutdownState[i] == SHUTDOWN_NONE
    {
      this.root := root;
      this.cells := cells;
      shutdownState := new int[|root|](_ => SHUTDOWN_NONE);
      actions := [];
    }

    method SuspendCell(bits: CpuSet, caller: nat)
      modifies this`actions
      ensures actions == old(actions) + Suspends(Members(bits, 0, caller))
    {
      hide Suspends;
      hide Releases;
      hide Members;
      var cpu: int := -1;
      ghost var done: seq<nat> := [];
      NoneYet(bits, caller);
      while cpu < |bits|
        invariant -1 <= cpu <= |bits|
        invariant Members(bits, 0, caller) == done + Members(bits, cpu + 1, caller)
        invariant actions == old(actions) + Suspends(done)
        decreases |bits| - cpu
      {
        var next := NextCpu(cpu, bits, caller);
        ghost var rest := Members(bits, next + 1, caller);
        if next < |bits| {
          assert done + ([next] + rest) == (done + [next]) + rest;
          actions := actions + [Suspend(next)];
          OneMore(done, next);
          done := done + [next];
        }
        cpu := next;
      }
      assert done + [] == done;
    }

    method ReleaseCell(bits: CpuSet)
      modifies this`actions
      ensures actions == old(actions) + Releases(Members(bits, 0, -1))
    {
      hide Suspends;
      hide Releases;
      hide Members;
      var cpu: int := -1;
      ghost var done: seq<nat> := [];
      NoneYet(bits, -1);
      while cpu < |bits|
        invariant -1 <= cpu <= |bits|
        invariant Members(bits, 0, -1) == done + Members(bits, cpu + 1, -1)
        invariant actions == old(actions) + Releases(done)
        decreases |bits| - cpu
      {
        var next := NextCpu(cpu, bits, -1);
        ghost var rest := Members(bits, next + 1, -1);
        if next < |bits| {
          assert done + ([next] + rest) == (done + [next]) + rest;
          actions := actions + [Release(next)];
          OneMore(done, next);
          done := done + [next];
        }
        cpu := next;
      }
      assert done + [] == done;
    }

    method CloseCells(caller: nat)
      modifies this`actions
      ensures actions == old(actions) + Closing(cells, caller) && Orderly(cells, caller, Closing(cells, caller))
    {
      hide Suspends;
      hide Releases;
      hide Members;
      for k := 0 to |cells|
        invariant actions == old(actions) + Closing(cells[..k], caller)
      {
        SuspendCell(cells[k], caller);
        ReleaseCell(cells[k]);
        assert cells[..k + 1][..k] == cells[..k];
      }
      assert cells[..|cells|] == cells;
      ClosesOrderly(cells, caller);
    }

    method SpreadState(state: int)
      requires Valid()
      modifies shutdownState
      ensures shutdownState[..] == Spread(root, old(shutdownState[..]), state)
      ensures forall i | 0 <= i < |root| :: shutdownState[i] == if root[i] then state else old(shutdownState[i])
    {
      var cpu: int := -1;
      while cpu < |root|
        invariant -1 <= cpu <= |root|
        invariant forall i | 0 <= i < |root| ::
                    shutdownState[i] == if i <= cpu && root[i] then state else old(shutdownState[i])
        decreases |root| - cpu
      {
        cpu := NextCpu(cpu, root, -1);
        if cpu < |root| {
          shutdownState[cpu] := state;
        }
      }
    }

    /** shutdown() on one CPU, under the shutdown lock; the answers are those of the cells when they are asked. */
    method Shutdown(cpu: nat, answers: seq<bool>) returns (ret: int)
      requires Valid() && cpu < |root| && |answers| == |cells|
      modifies this`actions, shutdownState
      ensures var o := Call(root, cells, old(shutdownState[..]), cpu, answers);
              ret == o.ret && shutdownState[..] == o.state && actions == old(actions) + o.actions
      ensures !root[cpu] ==> ret == -EPERM && shutdownState[..] == old(shutdownState[..]) && actions == old(actions)
      ensures root[cpu] ==> shutdownState[cpu] == SHUTDOWN_NONE
      ensures root[cpu] && old(shutdownState[cpu]) != SHUTDOWN_NONE ==>
                && ret == (if old(shutdownState[cpu]) == SHUTDOWN_STARTED then 0 else old(shutdownState[cpu]))
                && actions == old(actions)
                && forall i | 0 <= i < |root| && i != cpu :: shutdownState[i] == old(shutdownState[i])
      ensures root[cpu] && old(shutdownState[cpu]) == SHUTDOWN_NONE ==>
                var yes := forall k | 0 <= k < |answers| :: answers[k];
                && ret == (if yes then 0 else -EPERM)
                && (forall i | 0 <= i < |root| && i != cpu ::
                      shutdownState[i] == if !root[i] then old(shutdownState[i])
                                          else if yes then SHUTDOWN_STARTED else -EPERM)
                && if !yes then actions == old(actions)
                   else exists plan :: actions == old(actions) + plan + [CloseRoot] && Orderly(cells, cpu, plan)
    {
      if !root[cpu] {
        return -EPERM;
      }
      if shutdownState[cpu] == SHUTDOWN_NONE {
        var state := SHUTDOWN_STARTED;
        for k := 0 to |cells|
          invariant state == if AllApprove(answers[..k]) then SHUTDOWN_STARTED else -EPERM
        {
          assert answers[..k + 1] == answers[..k] + [answers[k]];
          if !answers[k] {
            state := -EPERM;
          }
        }
        assert answers[..|cells|] == answers;
        if state == SHUTDOWN_STARTED {
          CloseCells(cpu);
          actions := actions + [CloseRoot];
          assert actions == old(actions) + (Closing(cells, cpu) + [CloseRoot]);
        }
        SpreadState(state);
      }
      if shutdownState[cpu] == SHUTDOWN_STARTED {
        ret := 0;
      } else {
        ret := shutdownState[cpu];
      }
      shutdownState[cpu] := SHUTDOWN_NONE;
    }
  }

  // ---- Any sequence of calls ----

  datatype Request = Request(cpu: nat, answers: seq<bool>)

  /** One call on the machine; a CPU id the machine does not have cannot call. */
  function After(root: CpuSet, cells: seq<CpuSet>, state: seq<int>, r: Request): (o: Outcome)
    requires |root| == |state|
    ensures |o.state| == |state|
  {
    if r.cpu < |root| then Call(root, cells, state, r.cpu, r.answers) else Outcome(-EPERM, state, [])
  }

  /** The states after a sequence of calls, the returned values and all actions. */
  datatype History = History(state: seq<int>, rets: seq<int>, actions: seq<Action>)

  function Serve(root: CpuSet, cells: seq<CpuSet>, calls: seq<Request>): (h: History)
    ensures |h.state| == |root| && |h.rets| == |calls|
  {
    if calls == [] then History(seq(|root|, _ => SHUTDOWN_NONE), [], [])
    else
      var k := |calls| - 1;
      var h := Serve(root, cells, calls[..k]);
      var o := After(root, cells, h.state, calls[k]);
      History(o.state, h.rets + [o.ret], h.actions + o.actions)
  }

  /** The decision that was taken last; SHUTDOWN_NONE if there was none. */
  function Latest(root: CpuSet, cells: seq<CpuSet>, calls: seq<Request>): (d: int)
  {
    if calls == [] then SHUTDOWN_NONE
    else
      var k := |calls| - 1;
      if Decides(root, Serve(root, cells, calls[..k]).state, calls[k].cpu) then Decision(calls[k].answers)
      else Latest(root, cells, calls[..k])
  }

  /** The value a root CPU returns under a decision. */
  function Verdict(d: int): int { if d == SHUTDOWN_STARTED then 0 else -EPERM }

  predicate PendingLatest(root: CpuSet, state: seq<int>, d: int) {
    && |state| == |root| && (d == SHUTDOWN_NONE || d == SHUTDOWN_STARTED || d == -EPERM)
    && forall c | 0 <= c < |root| && root[c] :: state[c] == SHUTDOWN_NONE || state[c] == d
  }

  lemma {:induction false} StatesPending(root: CpuSet, cells: seq<CpuSet>, calls: seq<Request>)
    ensures PendingLatest(root, Serve(root, cells, calls).state, Latest(root, cells, calls))
  {
    if calls != [] {
      StatesPending(root, cells, calls[..|calls| - 1]);
    }
  }

  /**
   * Whatever was called before, a root CPU is told the latest decision, which it takes itself if it knows it already.
   */
  lemma ToldLatest(root: CpuSet, cells: seq<CpuSet>, calls: seq<Request>)
    requires calls != [] && In(calls[|calls| - 1].cpu, root)
    ensures Latest(root, cells, calls) != SHUTDOWN_NONE
    ensures Serve(root, cells, calls).rets[|calls| - 1] == Verdict(Latest(root, cells, calls))
  {
    StatesPending(root, cells, calls[..|calls| - 1]);
  }

  // ---- One round: every root CPU calls once, in any order ----

  predicate Called(calls: seq<Request>, c: int) { exists i :: 0 <= i < |calls| && calls[i].cpu == c }

  /** No root CPU calls twice; calls from other CPUs may come in between. */
  predicate Once(root: CpuSet, calls: seq<Request>) {
    forall i, j | 0 <= i < j < |calls| && In(calls[i].cpu, root) :: calls[i].cpu != calls[j].cpu
  }

  /** The first call of a root CPU. */
  function First(root: CpuSet, calls: seq<Request>): (i: nat)
    ensures i <= |calls| && (i < |calls| ==> In(calls[i].cpu, root))
    ensures forall j | 0 <= j < i :: !In(calls[j].cpu, root)
  {
    if calls == [] then 0
    else
      var i := First(root, calls[..|calls| - 1]);
      if i < |calls| - 1 || In(calls[|calls| - 1].cpu, root) then i else |calls|
  }

  function Actions(cells: seq<CpuSet>, r: Request): seq<Action> {
    if AllApprove(r.answers) then Closing(cells, r.cpu) + [CloseRoot] else []
  }

  /** Where the machine is when the calls so far belong to one round. */
  predicate RoundAt(root: CpuSet, cells: seq<CpuSet>, calls: seq<Request>, h: History) {
    var f := First(root, calls);
    && |h.state| == |root| && |h.rets| == |calls|
    && (forall c | 0 <= c < |root| && root[c] ::
          h.state[c] == if f == |calls| || Called(calls, c) then SHUTDOWN_NONE else Decision(calls[f].answers))
    && (forall i | 0 <= i < |calls| ::
          h.rets[i] == if In(calls[i].cpu, root) && f < |calls| then Verdict(Decision(calls[f].answers)) else -EPERM)
    && h.actions == if f < |calls| then Actions(cells, calls[f]) else []
  }

  lemma {:induction false} RoundHolds(root: CpuSet, cells: seq<CpuSet>, calls: seq<Request>)
    requires Once(root, calls)
    ensures RoundAt(root, cells, calls, Serve(root, cells, calls))
  {
    if calls != [] {
      var k := |calls| - 1;
      RoundHolds(root, cells, calls[..k]);
      RoundStep(root, cells, calls, Serve(root, cells, calls[..k]), Serve(root, cells, calls));
    }
  }

  lemma RoundStep(root: CpuSet, cells: seq<CpuSet>, calls: seq<Request>, g: History, h: History)
    requires calls != [] && Once(root, calls)
    requires var k := |calls| - 1;
             && RoundAt(root, cells, calls[..k], g)
             && var o := After(root, cells, g.state, calls[k]);
                h == History(o.state, g.rets + [o.ret], g.actions + o.actions)
    ensures RoundAt(root, cells, calls, h)
  {
    var k := |calls| - 1;
    assert forall c :: Called(calls, c) <==> Called(calls[..k], c) || calls[k].cpu == c;
    assert In(calls[k].cpu, root) ==> !Called(calls[..k], calls[k].cpu);
  }

  /**
   * In a round all root CPUs return the same value: 0 if every cell approved when the first of them asked, -EPERM
   * otherwise; a denial leaves every CPU where it is, and afterwards the next round can start.
   */
  lemma OneVote(root: CpuSet, cells: seq<CpuSet>, calls: seq<Request>)
    requires Once(root, calls) && (forall c | In(c, root) :: Called(calls, c)) && (exists c :: In(c, root))
    ensures var f, h := First(root, calls), Serve(root, cells, calls);
            && f < |calls|
            && (forall i | 0 <= i < |calls| && In(calls[i].cpu, root) ::
                  h.rets[i] == if AllApprove(calls[f].answers) then 0 else -EPERM)
            && (forall i | 0 <= i < |calls| && !In(calls[i].cpu, root) :: h.rets[i] == -EPERM)
            && h.actions == Actions(cells, calls[f])
            && (forall c | 0 <= c < |root| && root[c] :: h.state[c] == SHUTDOWN_NONE)
  {
    RoundHolds(root, cells, calls);
  }

  // ---- What an approved shutdown does ----

  lemma {:induction false} ReleasedIff(cells: seq<CpuSet>, caller: nat, c: nat)
    ensures Release(c) in Closing(cells, caller) <==> exists k :: 0 <= k < |cells| && In(c, cells[k])
  {
    if cells != [] {
      var k := |cells| - 1;
      ReleasedIff(cells[..k], caller, c);
      MembersAre(cells[k], 0, caller);
      MembersAre(cells[k], 0, -1);
      var a, b := Members(cells[k], 0, caller), Members(cells[k], 0, -1);
      assert Release(c) in Releases(b) <==> c in b by {
        if c in b {
          var i :| 0 <= i < |b| && b[i] == c;
          assert Releases(b)[i] == Release(c);
        }
      }
      assert cells == cells[..k] + [cells[k]];
    }
  }

  /** The CPU that is released at j belongs to a cell all of whose CPUs were suspended before. */
  ghost predicate WholeBefore(cells: seq<CpuSet>, caller: nat, acts: seq<Action>, j: nat) {
    j < |acts| && acts[j].Release? ==>
      exists k :: 0 <= k < |cells| && In(acts[j].cpu, cells[k]) && AllSuspended(cells[k], caller, acts[..j])
  }

  ghost predicate AllSuspended(bits: CpuSet, caller: nat, acts: seq<Action>) {
    forall c: nat | In(c, bits) && c != caller :: Suspend(c) in acts
  }

  /** A cell is suspended as a whole before a CPU of it is released. */
  lemma {:induction false} SuspendedFirst(cells: seq<CpuSet>, caller: nat, j: nat)
    ensures WholeBefore(cells, caller, Closing(cells, caller), j)
  {
    var all := Closing(cells, caller);
    if j < |all| && all[j].Release? {
      var k := |cells| - 1;
      var before, a, b := Closing(cells[..k], caller), Members(cells[k], 0, caller), Members(cells[k], 0, -1);
      assert all == before + Suspends(a) + Releases(b);
      if j < |before| {
        SuspendedFirst(cells[..k], caller, j);
        assert all[..j] == before[..j];
        var i :| 0 <= i < k && In(before[j].cpu, cells[..k][i]) && AllSuspended(cells[..k][i], caller, before[..j]);
        assert cells[..k][i] == cells[i];
      } else {
        MembersAre(cells[k], 0, caller);
        MembersAre(cells[k], 0, -1);
        assert all[j].cpu in b;
        forall c: nat | In(c, cells[k]) && c != caller ensures Suspend(c) in all[..j] {
          var i :| 0 <= i < |a| && a[i] == c;
          assert Suspends(a)[i] == Suspend(c);
          assert all[..j][|before| + i] == Suspend(c);
        }
      }
    }
  }

  /** How many cells have the CPU. */
  function CellsWith(cells: seq<CpuSet>, c: nat): nat {
    if cells == [] then 0
    else CellsWith(cells[..|cells| - 1], c) + if In(c, cells[|cells| - 1]) then 1 else 0
  }

  /** How often an action occurs. */
  function Times(acts: seq<Action>, a: Action): nat { multiset(acts)[a] }

  /**
   * What closing the cells has to do: each CPU is suspended and released once for every cell that has it, no other
   * CPU is touched, the caller is not suspended, a CPU is suspended for a cell before it is released for it and not
   * again before the next cell's turn, and a cell is suspended as a whole before a CPU of it is released.
   */
  ghost predicate Orderly(cells: seq<CpuSet>, caller: nat, acts: seq<Action>) {
    && CloseRoot !in acts
    && (forall c: nat :: Times(acts, Release(c)) == CellsWith(cells, c))
    && (forall c: nat :: Times(acts, Suspend(c)) == if c == caller then 0 else CellsWith(cells, c))
    && (forall j: nat, c: nat | j <= |acts| && c != caller :: InTurn(acts[..j], c))
    && (forall j: nat :: WholeBefore(cells, caller, acts, j))
  }

  /** So far the CPU was released as often as it was suspended, or once less. */
  predicate InTurn(acts: seq<Action>, c: nat) {
    Times(acts, Release(c)) <= Times(acts, Suspend(c)) <= Times(acts, Release(c)) + 1
  }

  predicate Ascending(cpus: seq<nat>) { forall i, j | 0 <= i < j < |cpus| :: cpus[i] < cpus[j] }

  lemma MembersAscending(bits: CpuSet, except: int)
    ensures Ascending(Members(bits, 0, except))
    ensures forall c: nat :: c in Members(bits, 0, except) <==> In(c, bits) && c != except
  {
    MembersAre(bits, 0, except);
  }

  lemma TimesSum(a: seq<Action>, b: seq<Action>, x: Action)
    ensures Times(a + b, x) == Times(a, x) + Times(b, x)
  {
  }

  lemma {:induction false} TimesOnce(cpus: seq<nat>, c: nat)
    requires Ascending(cpus)
    ensures Times(Suspends(cpus), Suspend(c)) == (if c in cpus then 1 else 0) && Times(Suspends(cpus), Release(c)) == 0
    ensures Times(Releases(cpus), Release(c)) == (if c in cpus then 1 else 0) && Times(Releases(cpus), Suspend(c)) == 0
    ensures CloseRoot !in Suspends(cpus) && CloseRoot !in Releases(cpus)
  {
    if cpus != [] {
      var k := |cpus| - 1;
      TimesOnce(cpus[..k], c);
      assert Suspends(cpus) == Suspends(cpus[..k]) + [Suspend(cpus[k])];
      assert Releases(cpus) == Releases(cpus[..k]) + [Release(cpus[k])];
      assert cpus == cpus[..k] + [cpus[k]];
    }
  }

  /** One cell more. */
  lemma CloseOne(before: seq<Action>, a: seq<nat>, b: seq<nat>, c: nat, j: nat)
    requires Ascending(a) && Ascending(b)
    requires c in a <==> c in b
    requires Times(before, Suspend(c)) == Times(before, Release(c))
    requires forall i: nat | i <= |before| :: InTurn(before[..i], c)
    requires j <= |before + Suspends(a) + Releases(b)|
    ensures InTurn((before + Suspends(a) + Releases(b))[..j], c)
  {
    hide Suspends;
    hide Releases;
    var all, n, m := before + Suspends(a) + Releases(b), |before|, |before| + |a|;
    SizesAre(a);
    SizesAre(b);
    if j <= n {
      assert all[..j] == before[..j];
    } else if j <= m {
      assert all[..j] == before + Suspends(a)[..j - n];
      TimesPart(a, j - n, c);
      TimesSum(before, Suspends(a)[..j - n], Suspend(c));
      TimesSum(before, Suspends(a)[..j - n], Release(c));
    } else {
      assert all[..j] == before + Suspends(a) + Releases(b)[..j - m];
      TimesOnce(a, c);
      TimesPart(b, j - m, c);
      TimesSum(before, Suspends(a), Suspend(c));
      TimesSum(before, Suspends(a), Release(c));
      TimesSum(before + Suspends(a), Releases(b)[..j - m], Suspend(c));
      TimesSum(before + Suspends(a), Releases(b)[..j - m], Release(c));
    }
  }

  lemma SizesAre(cpus: seq<nat>)
    ensures |Suspends(cpus)| == |cpus| == |Releases(cpus)|
  {
  }

  lemma TimesPart(cpus: seq<nat>, j: nat, c: nat)
    requires j <= |cpus| && Ascending(cpus)
    ensures |Suspends(cpus)| == |Releases(cpus)| == |cpus|
    ensures Times(Suspends(cpus)[..j], Suspend(c)) <= (if c in cpus then 1 else 0)
    ensures Times(Releases(cpus)[..j], Release(c)) <= (if c in cpus then 1 else 0)
    ensures Times(Suspends(cpus)[..j], Release(c)) == 0 && Times(Releases(cpus)[..j], Suspend(c)) == 0
  {
    assert Suspends(cpus)[..j] == Suspends(cpus[..j]) && Releases(cpus)[..j] == Releases(cpus[..j]);
    TimesOnce(cpus[..j], c);
  }

  /** The actions that close the cells do it. */
  lemma {:induction false} ClosesOrderly(cells: seq<CpuSet>, caller: nat)
    ensures Orderly(cells, caller, Closing(cells, caller))
  {
    hide Times;
    hide Suspends;
    hide Releases;
    hide InTurn;
    hide WholeBefore;
    hide Members;
    hide Ascending;
    var all := Closing(cells, caller);
    forall j: nat ensures WholeBefore(cells, caller, all, j) {
      SuspendedFirst(cells, caller, j);
    }
    if cells == [] {
      NothingInTurn();
    } else {
      var k := |cells| - 1;
      ClosesOrderly(cells[..k], caller);
      MembersAscending(cells[k], caller);
      MembersAscending(cells[k], -1);
      var before, a, b := Closing(cells[..k], caller), Members(cells[k], 0, caller), Members(cells[k], 0, -1);
      assert all == before + Suspends(a) + Releases(b);
      forall c: nat
        ensures Times(all, Release(c)) == CellsWith(cells, c)
        ensures Times(all, Suspend(c)) == if c == caller then 0 else CellsWith(cells, c)
      {
        TimesOnce(a, c);
        TimesOnce(b, c);
        TimesSum(before, Suspends(a), Suspend(c));
        TimesSum(before, Suspends(a), Release(c));
        TimesSum(before + Suspends(a), Releases(b), Suspend(c));
        TimesSum(before + Suspends(a), Releases(b), Release(c));
      }
      TimesOnce(a, 0);
      TimesOnce(b, 0);
      forall j: nat, c: nat | j <= |all| && c != caller ensures InTurn(all[..j], c) {
        CloseOne(before, a, b, c, j);
      }
    }
  }

  lemma NothingInTurn()
    ensures forall c: nat :: Times([], Suspend(c)) == 0 && Times([], Release(c)) == 0 && InTurn([], c)
  {
  }

  ghost predicate Disjoint(cells: seq<CpuSet>) {
    forall j, k, c: nat | 0 <= j < k < |cells| && In(c, cells[j]) :: !In(c, cells[k])
  }

  lemma {:induction false} CellsWithOne(cells: seq<CpuSet>, c: nat)
    requires Disjoint(cells)
    ensures CellsWith(cells, c) == if exists k :: 0 <= k < |cells| && In(c, cells[k]) then 1 else 0
  {
    if cells != [] {
      var k := |cells| - 1;
      CellsWithOne(cells[..k], c);
      assert cells == cells[..k] + [cells[k]];
    }
  }

  /**
   * In cells that share no CPU, and of which the caller is in none, each CPU is suspended once and released once, in
   * this order, and nothing happens to it afterwards.
   */
  lemma ClosedOnce(cells: seq<CpuSet>, caller: nat, acts: seq<Action>, c: nat)
    requires Orderly(cells, caller, acts) && Disjoint(cells) && c != caller
    ensures if exists k :: 0 <= k < |cells| && In(c, cells[k])
            then exists i, j :: && 0 <= i < j < |acts| && acts[i] == Suspend(c) && acts[j] == Release(c)
                                && (forall k | 0 <= k < |acts| && k != i && k != j ::
                                      acts[k] != Suspend(c) && acts[k] != Release(c))
            else Suspend(c) !in acts && Release(c) !in acts
  {
    hide InTurn;
    CellsWithOne(cells, c);
    assert Times(acts, Release(c)) == CellsWith(cells, c) && Times(acts, Suspend(c)) == CellsWith(cells, c);
    if exists k :: 0 <= k < |cells| && In(c, cells[k]) {
      var i := Only(acts, Suspend(c));
      var j := Only(acts, Release(c));
      assert InTurn(acts[..j + 1], c);
      ReleasedAfter(acts, i, j, c);
    }
  }

  /** The one place of an action that occurs once. */
  lemma {:induction false} Only(acts: seq<Action>, a: Action) returns (i: nat)
    requires Times(acts, a) == 1
    ensures i < |acts| && acts[i] == a && forall k | 0 <= k < |acts| && k != i :: acts[k] != a
  {
    var n := |acts| - 1;
    assert acts == acts[..n] + [acts[n]];
    if acts[n] == a {
      i := n;
      assert a !in acts[..n];
    } else {
      i := Only(acts[..n], a);
    }
  }

  lemma ReleasedAfter(acts: seq<Action>, i: nat, j: nat, c: nat)
    requires i < |acts| && j < |acts| && acts[j] == Release(c) && InTurn(acts[..j + 1], c)
    requires forall k | 0 <= k < |acts| && k != i :: acts[k] != Suspend(c)
    ensures i < j || acts[i] != Suspend(c)
  {
    assert acts[..j + 1][j] == Release(c);
    assert forall k | 0 <= k < |acts[..j + 1]| :: acts[..j + 1][k] == acts[k];
  }
}
