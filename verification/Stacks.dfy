/** Kernel stacks over whole runs.  Every task that lives holds a pid and the 20 frames of
    its kernel stack, and the frames are those of the managed memory; so the pids ever
    issued stay few, and the stacks have pages of their own in the kernel's table. */
module KernelStacks {
  import opened Common
  import opened Recycling
  import opened PageTables
  import opened AddressSpaces

  /** The pages of the kernel's memory, from `BASE_ADDRESS` to `MEMORY_END`. */
  const MEMORY_FIRST: nat := 0x80200
  const MEMORY_LAST: nat := 0x88000
  const STACK_PAGES: nat := KERNEL_STACK_SIZE / PAGE_SIZE

  /** The pid allocator, the stack frames of the live pids, and all frames in use. */
  datatype Tasks = Tasks(pids: Pool, stacks: map<nat, set<nat>>, held: set<nat>)

  /** A task comes, with the frames its stack gets, or goes; somebody else takes a frame or
      gives one back. */
  datatype TaskOp = Create(frames: set<nat>) | End(pid: nat) | Take(frame: nat) | Give(frame: nat)

  const BOOT: Tasks := Tasks(Pool(0, []), map[], {})

  /** The allocator hands out free frames of [lo, end) only, and only the owner of a frame
      gives it back. */
  ghost predicate Allowed(t: Tasks, op: TaskOp, lo: nat, end: nat) {
    match op
    case Create(frames) => |frames| == STACK_PAGES && frames !! t.held && forall f :: f in frames ==> lo <= f < end
    case End(pid) => pid in t.stacks
    case Take(f) => f !in t.held && lo <= f < end
    case Give(f) => f in t.held && forall pid :: pid in t.stacks ==> f !in t.stacks[pid]
  }

  ghost function Next(t: Tasks, op: TaskOp): Tasks
    requires op.End? ==> op.pid in t.stacks
  {
    match op
    case Create(frames) =>
      var (pid, pids) := Issue(t.pids);
      Tasks(pids, t.stacks[pid := frames], t.held + frames)
    case End(pid) => Tasks(Recycle(t.pids, pid), t.stacks - {pid}, t.held - t.stacks[pid])
    case Take(f) => t.(held := t.held + {f})
    case Give(f) => t.(held := t.held - {f})
  }

  ghost predicate AllAllowed(t: Tasks, ops: seq<TaskOp>, lo: nat, end: nat)
    decreases |ops|
  {
    ops == [] || (Allowed(t, ops[0], lo, end) && AllAllowed(Next(t, ops[0]), ops[1..], lo, end))
  }

  ghost function After(t: Tasks, ops: seq<TaskOp>, lo: nat, end: nat): Tasks
    requires AllAllowed(t, ops, lo, end)
    decreases |ops|
  {
    if ops == [] then t else After(Next(t, ops[0]), ops[1..], lo, end)
  }

  /** Every live stack has 20 frames in use, and no two stacks share one. */
  ghost predicate StacksOk(stacks: map<nat, set<nat>>, held: set<nat>) {
    && (forall pid :: pid in stacks ==> |stacks[pid]| == STACK_PAGES && stacks[pid] <= held)
    && (forall a, b :: a in stacks && b in stacks && a != b ==> stacks[a] !! stacks[b])
  }

  ghost predicate Sound(t: Tasks, lo: nat, end: nat) {
    && Conserved(0, t.pids, t.stacks.Keys) && StacksOk(t.stacks, t.held)
    && (forall f :: f in t.held ==> lo <= f < end)
    && STACK_PAGES * t.pids.current <= end - lo
  }

  lemma {:induction false} StackFrames(stacks: map<nat, set<nat>>, held: set<nat>)
    requires StacksOk(stacks, held)
    ensures STACK_PAGES * |stacks| <= |held|
    decreases |stacks|
  {
    if stacks != map[] {
      var pid :| pid in stacks;
      var rest := stacks - {pid};
      assert stacks == rest[pid := stacks[pid]];
      StackFrames(rest, held - stacks[pid]);
      assert held == (held - stacks[pid]) + stacks[pid];
    }
  }

  lemma {:induction false} FewFrames(held: set<nat>, lo: nat, end: nat)
    requires lo <= end && forall f :: f in held ==> lo <= f < end
    ensures |held| <= end - lo
    decreases end - lo
  {
    if lo == end {
      assert held == {};
    } else {
      FewFrames(held - {lo}, lo + 1, end);
    }
  }

  /** A pid is issued for the first time only when all before it live, each with its
      20 frames. */
  lemma CreateIsSound(t: Tasks, frames: set<nat>, lo: nat, end: nat)
    requires lo <= end && Sound(t, lo, end) && Allowed(t, Create(frames), lo, end)
    ensures Sound(Next(t, Create(frames)), lo, end)
  {
    hide Conserved, Issue, StacksOk;
    var n := Next(t, Create(frames));
    var pid := Issue(t.pids).0;
    IssueConserves(0, t.pids, t.stacks.Keys);
    assert n.stacks.Keys == t.stacks.Keys + {pid};
    OneMoreStack(t.stacks, t.held, pid, frames);
    StackFrames(n.stacks, n.held);
    FewFrames(n.held, lo, end);
    IssuedOrAllLive(t.pids, t.stacks.Keys);
    assert |n.stacks.Keys| == |n.stacks|;
  }

  lemma OneMoreStack(stacks: map<nat, set<nat>>, held: set<nat>, pid: nat, frames: set<nat>)
    requires StacksOk(stacks, held) && |frames| == STACK_PAGES && frames !! held
    ensures StacksOk(stacks[pid := frames], held + frames)
  {
  }

  lemma IssuedOrAllLive(p: Pool, held: set<nat>)
    requires Conserved(0, p, held)
    ensures Issue(p).1.current == p.current || Issue(p).1.current == |held + {Issue(p).0}|
  {
    IssueConserves(0, p, held);
    ConservedCount(0, Issue(p).1, held + {Issue(p).0});
  }

  lemma EndIsSound(t: Tasks, pid: nat, lo: nat, end: nat)
    requires Sound(t, lo, end) && pid in t.stacks
    ensures Sound(Next(t, End(pid)), lo, end)
  {
    hide Conserved;
    RecycleConserves(0, t.pids, t.stacks.Keys, pid);
    assert (t.stacks - {pid}).Keys == t.stacks.Keys - {pid};
  }

  lemma {:induction false} RunIsSound(t: Tasks, ops: seq<TaskOp>, lo: nat, end: nat)
    requires lo <= end && Sound(t, lo, end) && AllAllowed(t, ops, lo, end)
    ensures Sound(After(t, ops, lo, end), lo, end)
    decreases |ops|
  {
    if ops != [] {
      StepIsSound(t, ops[0], lo, end);
      RunIsSound(Next(t, ops[0]), ops[1..], lo, end);
    }
  }

  lemma StepIsSound(t: Tasks, op: TaskOp, lo: nat, end: nat)
    requires lo <= end && Sound(t, lo, end) && Allowed(t, op, lo, end)
    ensures Sound(Next(t, op), lo, end)
  {
    hide Conserved;
    match op
    case Create(frames) => CreateIsSound(t, frames, lo, end);
    case End(pid) => EndIsSound(t, pid, lo, end);
    case _ =>
  }

  /** In every run from boot: a live pid's stack lies in the address space, its pages and its
      guard page have other keys in the kernel's table than those of any other live pid, than
      the trampoline, and than all identically mapped memory. */
  lemma StackPagesApart(ops: seq<TaskOp>, lo: nat, end: nat, a: nat, v: nat, b: nat, w: nat)
    requires MEMORY_FIRST <= lo <= end <= MEMORY_LAST && AllAllowed(BOOT, ops, lo, end)
    requires a in After(BOOT, ops, lo, end).stacks && b in After(BOOT, ops, lo, end).stacks
    requires StackPage(a, v) && StackPage(b, w)
    ensures a * 0x15000 + 0x15000 <= TRAMPOLINE
    ensures a != b ==> Key(v) != Key(w)
    ensures MEMORY_LAST <= Key(v) < Key(TRAMPOLINE / PAGE_SIZE)
  {
    hide Key, AllAllowed, After, Conserved, StackPage;
    var t := After(BOOT, ops, lo, end);
    BootIsSound(lo, end);
    RunIsSound(BOOT, ops, lo, end);
    LivePid(t.pids, t.stacks.Keys, a);
    StackKeyHigh(a, v);
    if a < b {
      KernelStackKeysApart(t.pids, t.stacks.Keys, a, b, v, w);
    } else if b < a {
      KernelStackKeysApart(t.pids, t.stacks.Keys, b, a, w, v);
    }
  }

  lemma BootIsSound(lo: nat, end: nat)
    requires lo <= end
    ensures Sound(BOOT, lo, end)
  {
  }

  lemma LivePid(p: Pool, held: set<nat>, a: nat)
    requires Conserved(0, p, held) && a in held
    ensures a < p.current
  {
  }

  lemma StackKeyHigh(a: nat, v: nat)
    requires a < 2000 && StackPage(a, v)
    ensures MEMORY_LAST <= Key(v) < Key(TRAMPOLINE / PAGE_SIZE)
  {
    var last := 0xF_FFFF_FFFF_FFFF;
    assert last - 21 * a - 21 <= v < last - 21 * a;
  }
}
