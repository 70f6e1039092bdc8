/**
 * The ARM ticket lock with its 16-bit tickets, as a state machine over the steps of any number of CPUs.
 */
module TicketLock {
  import opened Counting

  const WRAP: nat := 0x10000

  /** Where a CPU is in spin_lock and spin_unlock. */
  datatype Pc =
    | Idle
    | Spinning(ticket: nat, seen: nat)   // has its ticket; `seen` is its last copy of the owner field
    | Holding                            // between spin_lock and spin_unlock
    | Leaving(loaded: nat)               // has loaded the owner field in order to increment it

  /**
   * The lock word and the CPUs. `taken` and `entered` record who took a ticket and who got the lock, in order; the
   * code has no such counters.
   */
  datatype State = State(owner: nat, next: nat, cpus: seq<Pc>, taken: seq<nat>, entered: seq<nat>, released: nat)

  predicate Init(s: State, n: nat) {
    && s.owner == 0 && s.next == 0 && |s.cpus| == n && s.taken == [] && s.entered == [] && s.released == 0
    && forall c | 0 <= c < n :: s.cpus[c] == Idle
  }

  datatype Event = Take(c: nat) | Look(c: nat) | Enter(c: nat) | Load(c: nat) | Store(c: nat)

  predicate Enabled(s: State, e: Event) {
    && e.c < |s.cpus|
    && match e
       case Take(c) => s.cpus[c].Idle?
       case Look(c) => s.cpus[c].Spinning? && s.cpus[c].ticket != s.cpus[c].seen
       case Enter(c) => s.cpus[c].Spinning? && s.cpus[c].ticket == s.cpus[c].seen
       case Load(c) => s.cpus[c].Holding?
       case Store(c) => s.cpus[c].Leaving?
  }

  /**
   * One step of one CPU. Taking a ticket is the atomic ldrex/strex pair; looking again is the ldrh of the wait loop.
   */
  function Next(s: State, e: Event): State
    requires Enabled(s, e)
  {
    match e
    case Take(c) =>
      s.(next := (s.next + 1) % WRAP, cpus := s.cpus[c := Spinning(s.next, s.owner)], taken := s.taken + [c])
    case Look(c) =>
      s.(cpus := s.cpus[c := s.cpus[c].(seen := s.owner)])
    case Enter(c) =>
      s.(cpus := s.cpus[c := Holding], entered := s.entered + [c])
    case Load(c) =>
      s.(cpus := s.cpus[c := Leaving(s.owner)])
    case Store(c) =>
      s.(owner := (s.cpus[c].loaded + 1) % WRAP, cpus := s.cpus[c := Idle], released := s.released + 1)
  }

  predicate Inside(pc: Pc) { pc.Holding? || pc.Leaving? }

  /** A run of n CPUs: every step is enabled where it is taken. */
  ghost predicate Run(states: seq<State>, events: seq<Event>, n: nat) {
    && |states| == |events| + 1 && Init(states[0], n)
    && forall i | 0 <= i < |events| :: Enabled(states[i], events[i]) && states[i + 1] == Next(states[i], events[i])
  }

  // ---- The invariant ----

  /** The holder of ticket number k waits with it; its copy of the owner field matches only if its turn has come. */
  predicate Waits(s: State, k: nat)
    requires k < |s.taken|
  {
    var c := s.taken[k];
    && c < |s.cpus| && s.cpus[c].Spinning? && s.cpus[c].ticket == k % WRAP
    && (s.cpus[c].seen == s.cpus[c].ticket ==> k == s.released)
  }

  /** The tickets released .. |taken| are out, each with its own CPU; all other CPUs are idle. */
  predicate Queue(s: State) {
    && s.released <= |s.entered| <= s.released + 1 && |s.entered| <= |s.taken|
    && (forall k | s.released <= k < |s.taken| :: s.taken[k] < |s.cpus|)
    && (forall j, k | s.released <= j < k < |s.taken| :: s.taken[j] != s.taken[k])
    && (forall c: nat | c < |s.cpus| && !s.cpus[c].Idle? :: c in s.taken[s.released..])
    && (forall k | |s.entered| <= k < |s.taken| :: Waits(s, k))
  }

  predicate Inv(s: State) {
    && s.owner == s.released % WRAP && s.next == |s.taken| % WRAP
    && Queue(s)
    && s.entered == s.taken[..|s.entered|]
    && (|s.entered| == s.released + 1 ==> Inside(s.cpus[s.taken[s.released]]))
    && (forall c: nat | c < |s.cpus| && s.cpus[c].Leaving? :: s.cpus[c].loaded == s.owner)
  }

  /** Distinct CPUs hold the tickets that are out, so there are at most as many tickets as CPUs. */
  lemma TicketsOut(s: State, idle: nat)
    requires Queue(s) && idle < |s.cpus| && s.cpus[idle].Idle?
    requires forall k | s.released <= k < |s.taken| :: !s.cpus[s.taken[k]].Idle?
    ensures |s.taken| - s.released < |s.cpus|
  {
    var out := s.taken[s.released..];
    var holders := set c | c in out;
    DistinctCount(out, holders);
    SubsetCount(holders, UpTo(|s.cpus|) - {idle});
  }

  /** Who holds a ticket is not idle. */
  lemma HoldersBusy(s: State, k: nat)
    requires Inv(s) && s.released <= k < |s.taken|
    ensures !s.cpus[s.taken[k]].Idle?
  {
    if k >= |s.entered| {
      assert Waits(s, k);
    }
  }

  /** Numbers that are congruent and closer than the modulus are equal. */
  lemma Congruent(r: nat, k: nat)
    requires r <= k < r + WRAP && r % WRAP == k % WRAP
    ensures r == k
  {
  }

  // ---- Every step keeps the invariant ----

  lemma ModStep(a: nat)
    ensures (a % WRAP + 1) % WRAP == (a + 1) % WRAP
  {
  }

  lemma TakeQueue(s: State, c: nat)
    requires Inv(s) && |s.cpus| <= WRAP && Enabled(s, Take(c))
    ensures Queue(Next(s, Take(c))) && c !in s.taken[s.released..]
  {
    var t, T := Next(s, Take(c)), |s.taken|;
    forall k | s.released <= k < T ensures s.taken[k] != c {
      HoldersBusy(s, k);
    }
    assert t.taken[s.released..] == s.taken[s.released..] + [c];
    TakeWaits(s, c);
  }

  lemma TakeWaits(s: State, c: nat)
    requires Inv(s) && |s.cpus| <= WRAP && Enabled(s, Take(c))
    ensures var t := Next(s, Take(c)); forall k | |t.entered| <= k < |t.taken| :: Waits(t, k)
  {
    var t, T := Next(s, Take(c)), |s.taken|;
    forall k | s.released <= k < T ensures !s.cpus[s.taken[k]].Idle? {
      HoldersBusy(s, k);
    }
    TicketsOut(s, c);
    forall k | |t.entered| <= k < |t.taken| ensures Waits(t, k) {
      if k < T {
        assert Waits(s, k);
      } else if t.cpus[c].seen == t.cpus[c].ticket {
        Congruent(s.released, T);
      }
    }
  }

  lemma TakeKeeps(s: State, c: nat)
    requires Inv(s) && |s.cpus| <= WRAP && Enabled(s, Take(c))
    ensures Inv(Next(s, Take(c)))
  {
    hide Queue;
    TakeQueue(s, c);
    TakeRest(s, c);
    ModStep(|s.taken|);
  }

  lemma TakeRest(s: State, c: nat)
    requires Inv(s) && Enabled(s, Take(c)) && c !in s.taken[s.released..]
    ensures var t := Next(s, Take(c));
            && t.entered == t.taken[..|t.entered|]
            && (|t.entered| == t.released + 1 ==> Inside(t.cpus[t.taken[t.released]]))
  {
    if |s.entered| == s.released + 1 {
      assert s.taken[s.released] in s.taken[s.released..];
    }
  }

  lemma LookKeeps(s: State, c: nat)
    requires Inv(s) && |s.cpus| <= WRAP && Enabled(s, Look(c))
    ensures Inv(Next(s, Look(c)))
  {
    var t := Next(s, Look(c));
    TicketBound(s);
    forall k | |t.entered| <= k < |t.taken| ensures Waits(t, k) {
      assert Waits(s, k);
      if s.taken[k] == c && t.cpus[c].seen == t.cpus[c].ticket {
        Congruent(s.released, k);
      }
    }
  }

  lemma TicketBound(s: State)
    requires Inv(s)
    ensures |s.taken| - s.released <= |s.cpus|
  {
    var out := s.taken[s.released..];
    var holders := set c | c in out;
    DistinctCount(out, holders);
    SubsetCount(holders, UpTo(|s.cpus|));
  }

  /** A CPU that sees its own ticket is the owner, and nobody else is inside. */
  lemma EnterTurn(s: State, c: nat)
    requires Inv(s) && Enabled(s, Enter(c))
    ensures |s.entered| == s.released < |s.taken| && s.taken[s.released] == c
  {
    assert c in s.taken[s.released..];
    var k :| s.released <= k < |s.taken| && s.taken[k] == c;
    if k >= |s.entered| {
      assert Waits(s, k);
    }
  }

  lemma EnterKeeps(s: State, c: nat)
    requires Inv(s) && Enabled(s, Enter(c))
    ensures Inv(Next(s, Enter(c)))
  {
    var t := Next(s, Enter(c));
    EnterTurn(s, c);
    assert s.taken[..s.released + 1] == s.taken[..s.released] + [c];
    forall k | |t.entered| <= k < |t.taken| ensures Waits(t, k) {
      assert Waits(s, k);
    }
  }

  /** Whoever is inside is the holder of the oldest ticket. */
  lemma InsideIsOwner(s: State, c: nat)
    requires Inv(s) && c < |s.cpus| && Inside(s.cpus[c])
    ensures |s.entered| == s.released + 1 && s.taken[s.released] == c
  {
    forall k | |s.entered| <= k < |s.taken| ensures s.taken[k] != c {
      assert Waits(s, k);
    }
    assert c in s.taken[s.released..];
  }

  /** Mutual exclusion. */
  predicate AtMostOne(s: State) {
    forall c: nat, d: nat | c < |s.cpus| && d < |s.cpus| && Inside(s.cpus[c]) && Inside(s.cpus[d]) :: c == d
  }

  lemma InvExcludes(s: State)
    requires Inv(s)
    ensures AtMostOne(s)
  {
    forall c: nat, d: nat | c < |s.cpus| && d < |s.cpus| && Inside(s.cpus[c]) && Inside(s.cpus[d]) ensures c == d {
      InsideIsOwner(s, c);
      InsideIsOwner(s, d);
    }
  }

  lemma LoadKeeps(s: State, c: nat)
    requires Inv(s) && Enabled(s, Load(c))
    ensures Inv(Next(s, Load(c)))
  {
    var t := Next(s, Load(c));
    InsideIsOwner(s, c);
    forall k | |t.entered| <= k < |t.taken| ensures Waits(t, k) {
      assert Waits(s, k);
    }
  }

  lemma StoreKeeps(s: State, c: nat)
    requires Inv(s) && Enabled(s, Store(c))
    ensures Inv(Next(s, Store(c)))
  {
    var t := Next(s, Store(c));
    InsideIsOwner(s, c);
    InvExcludes(s);
    ModStep(s.released);
    assert s.taken[s.released..] == [c] + s.taken[s.released + 1..];
    forall k | |t.entered| <= k < |t.taken| ensures Waits(t, k) {
      assert Waits(s, k);
    }
  }

  lemma NextKeeps(s: State, e: Event)
    requires Inv(s) && |s.cpus| <= WRAP && Enabled(s, e)
    ensures Inv(Next(s, e))
  {
    match e {
      case Take(c) => TakeKeeps(s, c);
      case Look(c) => LookKeeps(s, c);
      case Enter(c) => EnterKeeps(s, c);
      case Load(c) => LoadKeeps(s, c);
      case Store(c) => StoreKeeps(s, c);
    }
  }

  // ---- Every run ----

  lemma {:induction false} RunKeeps(states: seq<State>, events: seq<Event>, n: nat, i: nat)
    requires Run(states, events, n) && n <= WRAP && i <= |events|
    ensures Inv(states[i]) && |states[i].cpus| == n
  {
    if i > 0 {
      RunKeeps(states, events, n, i - 1);
      NextKeeps(states[i - 1], events[i - 1]);
    }
  }

  /**
   * With at most 2^16 CPUs, at every point of every run at most one CPU is in the critical section, and the CPUs
   * have entered it in the order in which they took their tickets, however often the tickets have wrapped around.
   */
  lemma MutualExclusion(states: seq<State>, events: seq<Event>, n: nat, i: nat)
    requires Run(states, events, n) && n <= WRAP && i <= |events|
    ensures AtMostOne(states[i])
    ensures |states[i].entered| <= |states[i].taken| && states[i].entered == states[i].taken[..|states[i].entered|]
  {
    RunKeeps(states, events, n, i);
    InvExcludes(states[i]);
  }

  // ---- The lock is passed on ----

  /** With nobody inside, the holder of the oldest ticket can enter, at the latest after one more look. */
  lemma NextEnters(s: State) returns (t: State, events: seq<Event>)
    requires Inv(s) && |s.entered| == s.released < |s.taken|
    ensures Leads(s, t, events) && |events| <= 2 && t.entered == s.entered + [s.taken[s.released]]
  {
    var c := s.taken[s.released];
    assert Waits(s, s.released);
    if Enabled(s, Look(c)) {
      var u := Next(s, Look(c));
      t, events := Next(u, Enter(c)), [Look(c), Enter(c)];
      assert [Look(c), Enter(c)][1..] == [Enter(c)] && [Enter(c)][1..] == [];
      assert Leads(u, t, [Enter(c)]);
    } else {
      t, events := Next(s, Enter(c)), [Enter(c)];
      assert [Enter(c)][1..] == [];
    }
  }

  /** Each event is enabled where it comes. */
  ghost predicate Leads(s: State, t: State, events: seq<Event>)
    decreases |events|
  {
    if events == [] then t == s else Enabled(s, events[0]) && Leads(Next(s, events[0]), t, events[1..])
  }

  /** Whoever is inside can leave, and then nobody is. */
  lemma OwnerLeaves(s: State, c: nat) returns (t: State, events: seq<Event>)
    requires Inv(s) && |s.cpus| <= WRAP && c < |s.cpus| && Inside(s.cpus[c])
    ensures Leads(s, t, events) && |events| <= 2 && Inv(t)
    ensures t.taken == s.taken && t.entered == s.entered && |t.entered| == t.released
  {
    InsideIsOwner(s, c);
    if s.cpus[c].Holding? {
      var u := Next(s, Load(c));
      LoadKeeps(s, c);
      StoreKeeps(u, c);
      t, events := Next(u, Store(c)), [Load(c), Store(c)];
      assert [Load(c), Store(c)][1..] == [Store(c)] && [Store(c)][1..] == [];
      assert Leads(u, t, [Store(c)]);
    } else {
      StoreKeeps(s, c);
      t, events := Next(s, Store(c)), [Store(c)];
      assert [Store(c)][1..] == [];
    }
  }

  lemma {:induction false} LeadsOn(s: State, t: State, u: State, a: seq<Event>, b: seq<Event>)
    requires Leads(s, t, a) && Leads(t, u, b)
    ensures Leads(s, u, a + b)
    decreases |a|
  {
    if a == [] {
      assert a + b == b;
    } else {
      LeadsOn(Next(s, a[0]), t, u, a[1..], b);
      assert (a + b)[0] == a[0] && (a + b)[1..] == a[1..] + b;
    }
  }

  /**
   * Whoever waits gets the lock: at any point of any run at which somebody waits, four more steps at most let the CPU
   * with the oldest ticket in.
   */
  lemma TurnComes(states: seq<State>, events: seq<Event>, n: nat, i: nat) returns (t: State, more: seq<Event>)
    requires Run(states, events, n) && n <= WRAP && i <= |events| && |states[i].entered| < |states[i].taken|
    ensures Leads(states[i], t, more) && |more| <= 4
    ensures t.entered == states[i].entered + [states[i].taken[|states[i].entered|]]
  {
    var s := states[i];
    RunKeeps(states, events, n, i);
    if |s.entered| == s.released {
      t, more := NextEnters(s);
    } else {
      var u, first := OwnerLeaves(s, s.taken[s.released]);
      var second;
      t, second := NextEnters(u);
      more := first + second;
      LeadsOn(s, u, t, first, second);
    }
  }

  // ---- One CPU more ----

  /** The first k CPUs of n have taken a ticket, one after the other. */
  function Taken(n: nat, k: nat): State
    requires k <= n
  {
    State(0, k % WRAP, seq(n, c => if c < k then Spinning(c % WRAP, 0) else Idle), seq(k, c => c), [], 0)
  }

  lemma {:induction false} TakeAll(n: nat, k: nat) returns (states: seq<State>, events: seq<Event>)
    requires k <= n
    ensures Run(states, events, n) && |events| == k && states[k] == Taken(n, k)
  {
    if k == 0 {
      states, events := [Taken(n, 0)], [];
    } else {
      states, events := TakeAll(n, k - 1);
      TakeOne(n, k - 1);
      states, events := states + [Taken(n, k)], events + [Take(k - 1)];
    }
  }

  lemma TakeOne(n: nat, k: nat)
    requires k < n
    ensures Enabled(Taken(n, k), Take(k)) && Next(Taken(n, k), Take(k)) == Taken(n, k + 1)
  {
    ModStep(k);
    var s, t := Next(Taken(n, k), Take(k)), Taken(n, k + 1);
    assert s.cpus == t.cpus && s.taken == t.taken;
  }

  /** With more than 2^16 CPUs the first and the last of 2^16 + 1 have equal tickets, and both enter. */
  lemma TooManyCpus(n: nat) returns (states: seq<State>, events: seq<Event>)
    requires n > WRAP
    ensures Run(states, events, n) && !AtMostOne(states[|events|])
  {
    states, events := TakeAll(n, WRAP + 1);
    var s := Taken(n, WRAP + 1);
    var s1 := Next(s, Enter(0));
    var s2 := Next(s1, Enter(WRAP));
    assert Inside(s2.cpus[0]) && Inside(s2.cpus[WRAP]);
    states, events := states + [s1, s2], events + [Enter(0), Enter(WRAP)];
  }

  /** The lock excludes in every run if and only if there are at most 2^16 CPUs. */
  lemma ExcludesIff(n: nat)
    ensures (forall states, events :: Run(states, events, n) ==> AtMostOne(states[|events|])) <==> n <= WRAP
  {
    if n <= WRAP {
      forall states: seq<State>, events: seq<Event> | Run(states, events, n) ensures AtMostOne(states[|events|]) {
        MutualExclusion(states, events, n, |events|);
      }
    } else {
      var states, events := TooManyCpus(n);
      assert Run(states, events, n) && !AtMostOne(states[|events|]);
    }
  }
}
