/** cluster/partition_allocator.h: per-node core weights and partition
  * capacity, and the allocator's registration list with its round-robin
  * cursor. The counters are uint32 and wrap. */
module PartitionAllocator {

  /** 2^32: uint32 arithmetic is modulo this. */
  const U32: int := 0x1_0000_0000

  const Core0ExtraWeight: int := 2
  const MaxAllocationsPerCore: int := 7000

  predicate IsU32(x: int) { 0 <= x < U32 }

  predicate AllU32(ws: seq<int>) { forall i | 0 <= i < |ws| :: IsU32(ws[i]) }

  /** Result of uint32 arithmetic. */
  function Wrap(x: int): (r: int)
    ensures IsU32(r)
    ensures IsU32(x) ==> r == x
  {
    x % U32
  }

  function Sum(ws: seq<int>): int
  {
    if ws == [] then 0 else ws[0] + Sum(ws[1..])
  }

  // ---------------------------------------------------------------------------
  // Facts about weight vectors.

  lemma {:induction false} SumUpdate(ws: seq<int>, i: nat, v: int)
    requires i < |ws|
    ensures Sum(ws[i := v]) == Sum(ws) - ws[i] + v
    decreases |ws|
  {
    if i > 0 {
      SumUpdate(ws[1..], i - 1, v);
      assert ws[i := v][1..] == ws[1..][i - 1 := v];
    } else {
      assert ws[i := v][1..] == ws[1..];
    }
  }

  /** Every weight at least `k` means the total is at least `|ws| * k`. */
  lemma {:induction false} SumLowerBound(ws: seq<int>, k: int)
    requires forall i | 0 <= i < |ws| :: ws[i] >= k
    ensures Sum(ws) >= |ws| * k
    decreases |ws|
  {
    if ws != [] {
      SumLowerBound(ws[1..], k);
    }
  }

  /** Every weight exactly `k` means the total is exactly `|ws| * k`. */
  lemma {:induction false} SumConstant(ws: seq<int>, k: int)
    requires forall i | 0 <= i < |ws| :: ws[i] == k
    ensures Sum(ws) == |ws| * k
    decreases |ws|
  {
    if ws != [] {
      SumConstant(ws[1..], k);
    }
  }

  lemma {:induction false} SumNonNegative(ws: seq<int>, i: nat)
    requires AllU32(ws) && i < |ws|
    ensures Sum(ws) >= ws[i] >= 0
    decreases |ws|
  {
    if ws != [] {
      SumLowerBound(ws, 0);
      if i > 0 {
        SumNonNegative(ws[1..], i - 1);
      } else {
        SumLowerBound(ws[1..], 0);
      }
    }
  }

  /** The weight vector after `_weights[core]++` / `_weights[core]--`. */
  function Inc(ws: seq<int>, core: nat): (r: seq<int>)
    requires core < |ws|
    ensures |r| == |ws|
  {
    ws[core := Wrap(ws[core] + 1)]
  }

  function Dec(ws: seq<int>, core: nat): (r: seq<int>)
    requires core < |ws|
    ensures |r| == |ws|
  {
    ws[core := Wrap(ws[core] - 1)]
  }

  /** allocate(core) followed by deallocate(core) restores the weights, and
    * the capacity counter comes back too, wrap-around included. */
  lemma AllocateDeallocate(ws: seq<int>, core: nat, capacity: int)
    requires core < |ws| && AllU32(ws) && IsU32(capacity)
    ensures Dec(Inc(ws, core), core) == ws
    ensures Wrap(Wrap(capacity - 1) + 1) == capacity
  {
    var w := ws[core];
    if w == U32 - 1 {
      assert Wrap(w + 1) == 0;
    } else {
      assert Wrap(w + 1) == w + 1;
    }
    assert Dec(Inc(ws, core), core)[core] == w;
    if capacity == 0 {
      assert Wrap(capacity - 1) == U32 - 1;
    }
  }

  /** The first index holding the smallest weight (std::min_element). */
  method MinElement(ws: seq<int>) returns (m: nat)
    requires |ws| >= 1
    ensures m < |ws|
    ensures forall j | 0 <= j < |ws| :: ws[m] <= ws[j]
    ensures forall j | 0 <= j < m :: ws[j] > ws[m]
  {
    m := 0;
    var i := 1;
    while i < |ws|
      invariant 1 <= i <= |ws| && m < i
      invariant forall j | 0 <= j < i :: ws[m] <= ws[j]
      invariant forall j | 0 <= j < m :: ws[j] > ws[m]
    {
      if ws[i] < ws[m] {
        m := i;
      }
      i := i + 1;
    }
  }

  // ---------------------------------------------------------------------------
  // allocation_node.

  class AllocationNode {
    const id: int
    const labels: map<string, string>
    /** One weight per core: roughly the number of assignments on it. */
    var weights: seq<int>
    var capacity: int

    /** The conservation law in uint32 arithmetic: capacity plus the total
      * weight is `cpus * max_allocations_per_core`, modulo 2^32. */
    ghost predicate Valid()
      reads this
    {
      && |weights| >= 1 && AllU32(weights) && IsU32(capacity)
      && (capacity + Sum(weights)) % U32 == (|weights| * MaxAllocationsPerCore) % U32
    }

    /** The same law with no wrap-around: holds while nothing has underflowed
      * and `cpus * max_allocations_per_core` fits a uint32. */
    ghost predicate Exact()
      reads this
    {
      && |weights| * MaxAllocationsPerCore < U32
      && capacity + Sum(weights) == |weights| * MaxAllocationsPerCore
    }

    constructor(id: int, cpus: int, labels: map<string, string>)
      requires 1 <= cpus < U32
      ensures this.id == id && this.labels == labels
      ensures |weights| == cpus && weights[0] == Core0ExtraWeight
      ensures forall i | 1 <= i < cpus :: weights[i] == 0
      ensures capacity == Wrap(cpus * MaxAllocationsPerCore - Core0ExtraWeight)
      ensures Valid()
      ensures cpus * MaxAllocationsPerCore < U32 ==> Exact()
    {
      this.id := id;
      this.labels := labels;
      var ws := seq(cpus, i => if i == 0 then Core0ExtraWeight else 0);
      SumUpdate(seq(cpus, i => 0), 0, Core0ExtraWeight);
      SumConstant(seq(cpus, i => 0), 0);
      assert seq(cpus, i => 0)[0 := Core0ExtraWeight] == ws;
      weights := ws;
      capacity := Wrap(cpus * MaxAllocationsPerCore - Core0ExtraWeight);
    }

    /** is_full(): every core carries the maximum weight. In an exact state
      * that leaves no capacity. */
    method IsFull() returns (b: bool)
      requires Valid()
      ensures b <==> forall i | 0 <= i < |weights| :: weights[i] == MaxAllocationsPerCore
      ensures b && Exact() ==> capacity == 0
    {
      var i := 0;
      while i < |weights|
        invariant 0 <= i <= |weights|
        invariant forall j | 0 <= j < i :: weights[j] == MaxAllocationsPerCore
      {
        if weights[i] != MaxAllocationsPerCore {
          return false;
        }
        i := i + 1;
      }
      SumConstant(weights, MaxAllocationsPerCore);
      return true;
    }

    /** allocate(): bumps the first least-loaded core and returns its index. */
    method Allocate() returns (core: nat)
      requires Valid()
      modifies this
      ensures core < |old(weights)| == |weights|
      ensures forall j | 0 <= j < |weights| :: old(weights)[core] <= old(weights)[j]
      ensures forall j | 0 <= j < core :: old(weights)[j] > old(weights)[core]
      ensures weights == Inc(old(weights), core) && capacity == Wrap(old(capacity) - 1)
      ensures Valid()
      ensures old(Exact()) && old(capacity) > 0 ==> Exact()
    {
      core := MinElement(weights);
      ghost var before := weights;
      ghost var exact := Exact();
      ghost var cap := capacity;
      if exact && cap > 0 {
        // Spare capacity: some core is below the maximum, so the minimum is.
        if before[core] >= MaxAllocationsPerCore {
          SumLowerBound(before, MaxAllocationsPerCore);
        }
      }
      Bump(core, 1);
    }

    /** allocate(core). */
    method AllocateOn(core: nat)
      requires Valid() && core < |weights|
      modifies this
      ensures weights == Inc(old(weights), core) && capacity == Wrap(old(capacity) - 1)
      ensures Valid()
      ensures old(Exact()) && old(capacity) > 0 ==> Exact()
    {
      if Exact() && capacity > 0 {
        SumNonNegative(weights, core);
      }
      Bump(core, 1);
    }

    /** deallocate(core). */
    method Deallocate(core: nat)
      requires Valid() && core < |weights|
      modifies this
      ensures weights == Dec(old(weights), core) && capacity == Wrap(old(capacity) + 1)
      ensures Valid()
      ensures old(Exact()) && old(weights[core]) > 0 ==> Exact()
    {
      if Exact() {
        SumNonNegative(weights, core);
      }
      Bump(core, -1);
    }

    /** Moves one unit between `capacity` and `weights[core]`, both in
      * uint32 arithmetic. */
    method Bump(core: nat, d: int)
      requires Valid() && core < |weights| && (d == 1 || d == -1)
      modifies this
      ensures weights == old(weights)[core := Wrap(old(weights)[core] + d)]
      ensures capacity == Wrap(old(capacity) - d)
      ensures Valid()
      ensures old(Exact()) && IsU32(old(weights)[core] + d) && IsU32(old(capacity) - d) ==> Exact()
    {
      BumpLaw(weights, capacity, core, d);
      weights := weights[core := Wrap(weights[core] + d)];
      capacity := Wrap(capacity - d);
    }
  }

  /** One unit moved between a weight and the capacity, in uint32
    * arithmetic: the modular law is kept, and the exact one too when neither
    * counter wraps. */
  lemma BumpLaw(ws: seq<int>, c0: int, core: nat, d: int)
    requires AllU32(ws) && IsU32(c0) && core < |ws|
    requires (c0 + Sum(ws)) % U32 == (|ws| * MaxAllocationsPerCore) % U32
    ensures AllU32(ws[core := Wrap(ws[core] + d)])
    ensures (Wrap(c0 - d) + Sum(ws[core := Wrap(ws[core] + d)])) % U32 == (|ws| * MaxAllocationsPerCore) % U32
    ensures c0 + Sum(ws) == |ws| * MaxAllocationsPerCore && IsU32(ws[core] + d) && IsU32(c0 - d)
        ==> Wrap(c0 - d) + Sum(ws[core := Wrap(ws[core] + d)]) == |ws| * MaxAllocationsPerCore
  {
    var w := Wrap(ws[core] + d);
    SumUpdate(ws, core, w);
    SumUpdate(ws, core, ws[core] + d);
    ModStep(Wrap(c0 - d), c0, d, Sum(ws[core := w]), Sum(ws), |ws| * MaxAllocationsPerCore);
  }

  /** Moving one unit between two uint32 counters preserves their sum
    * modulo 2^32. */
  lemma ModStep(c: int, c0: int, d: int, s: int, s0: int, total: int)
    requires c == Wrap(c0 - d)
    requires s % U32 == (s0 + d) % U32
    requires (c0 + s0) % U32 == total % U32
    ensures (c + s) % U32 == total % U32
  {
    assert (c + s) % U32 == ((c0 - d) + (s0 + d)) % U32;
  }

  // ---------------------------------------------------------------------------
  // partition_allocator: registered nodes and the round-robin cursor.

  /** An iterator into the available-machines list: a position or end(). */
  datatype Cursor = End | At(index: nat)

  class Allocator {
    const highestGroup: int
    /** `_available_machines`, in registration order. */
    var available: seq<AllocationNode>
    /** `_machines`, keyed by node id. */
    var machines: map<int, AllocationNode>
    var rr: Cursor

    ghost predicate Valid()
      reads this
    {
      rr.At? ==> rr.index < |available|
    }

    constructor(highestKnownGroup: int)
      ensures highestGroup == highestKnownGroup
      ensures available == [] && machines == map[] && rr == End
      ensures Valid()
    {
      highestGroup := highestKnownGroup;
      available := [];
      machines := map[];
      rr := End;
    }

    /** register_node(n): appends to the list; the map keeps an existing
      * entry for the same id (flat_map::emplace). */
    method RegisterNode(n: AllocationNode)
      requires Valid()
      modifies this
      ensures available == old(available) + [n]
      ensures machines == if n.id in old(machines) then old(machines) else old(machines)[n.id := n]
      ensures rr == old(rr) && Valid()
    {
      available := available + [n];
      if n.id !in machines {
        machines := machines[n.id := n];
      }
    }

    /** round_robin_ptr(): an end cursor restarts at the first registered
      * node; any other position is kept. */
    method RoundRobinPtr() returns (c: Cursor)
      requires Valid()
      modifies this
      ensures c == rr && Valid()
      ensures old(rr).At? ==> rr == old(rr)
      ensures old(rr) == End ==> rr == (if |available| == 0 then End else At(0))
      ensures available == old(available) && machines == old(machines)
    {
      if rr == End {
        rr := if |available| == 0 then End else At(0);
      }
      c := rr;
    }
  }
}
