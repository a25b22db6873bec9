/** The two allocators that hand out numbers and take them back: pids and physical
    frames.  A number is always exactly one of never issued, recycled, or held. */
module Recycling {
  import opened Common

  /** Numbers from `current` on were never issued; `recycled` is a stack. */
  datatype Pool = Pool(current: nat, recycled: seq<nat>)

  function Issue(p: Pool): (r: (nat, Pool)) {
    if |p.recycled| > 0 then
      (p.recycled[|p.recycled| - 1], p.(recycled := p.recycled[..|p.recycled| - 1]))
    else
      (p.current, p.(current := p.current + 1))
  }

  function Recycle(p: Pool, n: nat): Pool {
    p.(recycled := p.recycled + [n])
  }

  /** Each number of [lo, current) is in `recycled`, once, or in `held`. */
  ghost predicate Conserved(lo: nat, p: Pool, held: set<nat>) {
    && lo <= p.current
    && (forall i, j :: 0 <= i < j < |p.recycled| ==> p.recycled[i] != p.recycled[j])
    && (forall n :: n in p.recycled ==> lo <= n < p.current && n !in held)
    && (forall n :: n in held ==> lo <= n < p.current)
    && (forall n :: lo <= n < p.current ==> n in held || n in p.recycled)
  }

  /** What is issued was held by nobody. */
  lemma IssueConserves(lo: nat, p: Pool, held: set<nat>)
    requires Conserved(lo, p, held)
    ensures Issue(p).0 !in held && lo <= Issue(p).0
    ensures Conserved(lo, Issue(p).1, held + {Issue(p).0})
  {
    var last := |p.recycled| - 1;
    if |p.recycled| > 0 {
      assert p.recycled == p.recycled[..last] + [p.recycled[last]];
      assert p.recycled[last] in p.recycled;
      var q := p.recycled[..last];
      forall n | n in q ensures n in p.recycled && n != p.recycled[last] {
        var i :| 0 <= i < |q| && q[i] == n;
        assert p.recycled[i] == n;
      }
    }
  }

  /** Taking back a held number never meets the source's panic conditions. */
  lemma RecycleConserves(lo: nat, p: Pool, held: set<nat>, n: nat)
    requires Conserved(lo, p, held) && n in held
    ensures n < p.current && n !in p.recycled
    ensures Conserved(lo, Recycle(p, n), held - {n})
  {
    var q := Recycle(p, n);
    forall x ensures x in q.recycled <==> x in p.recycled || x == n {
      assert q.recycled[|p.recycled|] == n;
    }
  }

  /** The number returned last is issued first. */
  lemma ReturnedLastIssuedFirst(p: Pool, n: nat)
    ensures Issue(Recycle(p, n)) == (n, p)
  {
    assert (p.recycled + [n])[..|p.recycled|] == p.recycled;
  }

  /** Conservation in numbers. */
  lemma {:induction false} ConservedCount(lo: nat, p: Pool, held: set<nat>)
    requires Conserved(lo, p, held)
    ensures |held| + |p.recycled| == p.current - lo
    decreases |p.recycled|
  {
    if p.recycled == [] {
      Interval(held, lo, p.current);
    } else {
      var (n, q) := Issue(p);
      IssueConserves(lo, p, held);
      ConservedCount(lo, q, held + {n});
    }
  }

  lemma {:induction false} Interval(s: set<nat>, lo: nat, hi: nat)
    requires lo <= hi && forall n :: n in s <==> lo <= n < hi
    ensures |s| == hi - lo
    decreases hi - lo
  {
    if lo == hi {
      assert s == {};
    } else {
      Interval(s - {lo}, lo + 1, hi);
    }
  }

  method Contains(s: seq<nat>, n: nat) returns (found: bool)
    ensures found <==> n in s
  {
    found := false;
    for i := 0 to |s|
      invariant found <==> n in s[..i]
    {
      if s[i] == n {
        found := true;
      }
      assert s[..i + 1] == s[..i] + [s[i]];
    }
    assert s[..|s|] == s;
  }

  class PidAllocator {
    var current: nat
    var recycled: seq<nat>
    /** The pids of live `PidHandle`s. */
    ghost var held: set<nat>

    ghost function State(): Pool reads this { Pool(current, recycled) }

    ghost predicate Valid() reads this { Conserved(0, State(), held) }

    constructor ()
      ensures Valid() && held == {}
    {
      current, recycled, held := 0, [], {};
    }

    method Alloc() returns (pid: nat)
      requires Valid()
      modifies this
      ensures Valid() && pid !in old(held) && held == old(held) + {pid}
      ensures (pid, State()) == Issue(old(State()))
    {
      IssueConserves(0, State(), held);
      if |recycled| > 0 {
        pid := recycled[|recycled| - 1];
        recycled := recycled[..|recycled| - 1];
      } else {
        current := current + 1;
        pid := current - 1;
      }
      held := held + {pid};
    }

    /** Dropping a `PidHandle`; `refused` would be the source's failed assertion. */
    method Dealloc(pid: nat) returns (refused: bool)
      requires Valid() && pid in held
      modifies this
      ensures Valid() && held == old(held) - {pid} && !refused
      ensures State() == Recycle(old(State()), pid)
    {
      RecycleConserves(0, State(), held, pid);
      var again := Contains(recycled, pid);
      refused := !(pid < current) || again;
      recycled := recycled + [pid];
      held := held - {pid};
    }
  }

  class StackFrameAllocator {
    var current: nat
    const end: nat
    var recycled: seq<nat>
    ghost const lo: nat
    /** The frames of live `FrameTracker`s. */
    ghost var held: set<nat>

    ghost function State(): Pool reads this { Pool(current, recycled) }

    ghost predicate Valid() reads this { Conserved(lo, State(), held) && current <= end }

    /** `new` followed by `init(l, r)`. */
    constructor (l: nat, r: nat)
      requires l <= r
      ensures Valid() && held == {} && lo == l && end == r
    {
      current, end, recycled, lo, held := l, r, [], l, {};
    }

    /** `alloc`: fails exactly when every managed frame is held. */
    method Alloc() returns (ppn: Option<nat>)
      requires Valid()
      modifies this`current, this`recycled, this`held
      ensures Valid()
      ensures ppn.None? <==> |old(held)| == end - lo
      ensures ppn.None? ==> State() == old(State()) && held == old(held)
      ensures ppn.Some? ==> lo <= ppn.value < end && ppn.value !in old(held) && held == old(held) + {ppn.value}
      ensures ppn.Some? ==> (ppn.value, State()) == Issue(old(State()))
    {
      IssueConserves(lo, State(), held);
      ConservedCount(lo, State(), held);
      if |recycled| > 0 {
        ppn := Some(recycled[|recycled| - 1]);
        assert recycled[|recycled| - 1] in recycled;
        recycled := recycled[..|recycled| - 1];
      } else if current == end {
        return None;
      } else {
        current := current + 1;
        ppn := Some(current - 1);
      }
      held := held + {ppn.value};
    }

    /** Dropping a `FrameTracker`; `refused` would be the source's panic. */
    method Dealloc(ppn: nat) returns (refused: bool)
      requires Valid() && ppn in held
      modifies this`recycled, this`held
      ensures Valid() && held == old(held) - {ppn} && !refused
      ensures State() == Recycle(old(State()), ppn)
    {
      RecycleConserves(lo, State(), held, ppn);
      var again := Contains(recycled, ppn);
      refused := ppn >= current || again;
      recycled := recycled + [ppn];
      held := held - {ppn};
    }
  }

  // ----- kernel stacks

  const KERNEL_STACK_SIZE: nat := 0x14000
  /** The last page of the address space. */
  const TRAMPOLINE: nat := 0x1_0000_0000_0000_0000 - PAGE_SIZE

  /** `kernel_stack_position`: bottom and top. */
  function KernelStack(pid: nat): (r: (nat, nat))
    requires pid * 0x15000 + 0x14000 <= TRAMPOLINE
  {
    var top := TRAMPOLINE - pid * (KERNEL_STACK_SIZE + PAGE_SIZE);
    (top - KERNEL_STACK_SIZE, top)
  }

  /** The stacks hang below the trampoline in the order of the pids, 20 pages each, with one
      page between them. */
  lemma KernelStackPlace(pid: nat)
    requires (pid + 1) * 0x15000 + 0x14000 <= TRAMPOLINE
    ensures KernelStack(0).1 == TRAMPOLINE && KernelStack(pid).1 == KernelStack(pid).0 + 20 * PAGE_SIZE
    ensures KernelStack(pid + 1).1 + PAGE_SIZE == KernelStack(pid).0
  {
  }

  /** The stacks of two live pids do not overlap and keep a guard page between them. */
  lemma KernelStacksApart(p: Pool, held: set<nat>, a: nat, b: nat)
    requires Conserved(0, p, held) && a in held && b in held && a < b
    requires p.current * 0x15000 <= TRAMPOLINE
    ensures a * 0x15000 + 0x14000 <= TRAMPOLINE && b * 0x15000 + 0x14000 <= TRAMPOLINE
    ensures KernelStack(b).1 + PAGE_SIZE <= KernelStack(a).0
    ensures KernelStack(a).1 <= TRAMPOLINE
  {
  }
}
