/** CPU sets as bitmaps, and the loop over their members. */
module CpuSets {

  type CpuSet = seq<bool>

  predicate In(cpu: int, bits: CpuSet) { 0 <= cpu < |bits| && bits[cpu] }

  /** The members from `from` on, except one, in ascending order. */
  function Members(bits: CpuSet, from: nat, except: int): seq<nat>
    decreases |bits| - from
  {
    if from >= |bits| then []
    else (if bits[from] && from != except then [from] else []) + Members(bits, from + 1, except)
  }

  lemma {:induction false} MemberIff(bits: CpuSet, from: nat, except: int, c: nat)
    ensures c in Members(bits, from, except) <==> In(c, bits) && from <= c && c != except
    decreases |bits| - from
  {
    if from < |bits| {
      MemberIff(bits, from + 1, except, c);
    }
  }

  lemma {:induction false} MembersAscend(bits: CpuSet, from: nat, except: int, i: nat, j: nat)
    requires i < j < |Members(bits, from, except)|
    ensures Members(bits, from, except)[i] < Members(bits, from, except)[j]
    decreases |bits| - from
  {
    var rest := Members(bits, from + 1, except);
    if |rest| == |Members(bits, from, except)| {
      MembersAscend(bits, from + 1, except, i, j);
    } else if i > 0 {
      MembersAscend(bits, from + 1, except, i - 1, j - 1);
    } else {
      MemberIff(bits, from + 1, except, rest[j - 1]);
    }
  }

  /** Each member comes exactly once, in ascending order, and nothing else comes. */
  lemma MembersAre(bits: CpuSet, from: nat, except: int)
    ensures forall c: nat :: c in Members(bits, from, except) <==> In(c, bits) && from <= c && c != except
    ensures var m := Members(bits, from, except); forall i, j | 0 <= i < j < |m| :: m[i] < m[j]
  {
    forall c: nat ensures c in Members(bits, from, except) <==> In(c, bits) && from <= c && c != except {
      MemberIff(bits, from, except, c);
    }
    var m := Members(bits, from, except);
    forall i, j | 0 <= i < j < |m| ensures m[i] < m[j] {
      MembersAscend(bits, from, except, i, j);
    }
  }

  /** next_cpu: the least member above the given one, or one past the end; -1 starts a walk. */
  method NextCpu(cpu: int, bits: CpuSet, except: int) returns (next: nat)
    requires -1 <= cpu < |bits|
    ensures cpu < next <= |bits|
    ensures next < |bits| ==> bits[next] && next != except
    ensures forall c | cpu < c < next :: !bits[c] || c == except
    ensures Members(bits, cpu + 1, except) ==
            if next < |bits| then [next] + Members(bits, next + 1, except) else []
  {
    next := cpu + 1;
    while next < |bits| && (next == except || !bits[next])
      invariant cpu < next <= |bits|
      invariant forall c | cpu < c < next :: !bits[c] || c == except
      invariant Members(bits, cpu + 1, except) == Members(bits, next, except)
    {
      next := next + 1;
    }
  }

  /** The members below n, except one, as a set. */
  ghost function SetTo(bits: CpuSet, except: int, n: nat): (r: set<nat>)
    ensures forall c: nat :: c in r <==> c < n && In(c, bits) && c != except
  {
    if n == 0 then {}
    else SetTo(bits, except, n - 1) + if In(n - 1, bits) && n - 1 != except then {n - 1} else {}
  }

  ghost function SetOf(bits: CpuSet, except: int): set<nat> { SetTo(bits, except, |bits|) }
}
