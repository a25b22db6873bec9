/** Stride fairness over whole runs of the process state machine. */
module Fairness {
  import opened Common
  import opened StrideScheduler
  import opened Recycling
  import opened Processes

  ghost predicate Live(w: World, r: nat) {
    r in w.tasks && w.tasks[r].status != Zombie
  }

  /** The passes of live tasks differ by at most half of the big stride. */
  ghost predicate Spread(w: World) {
    forall r, q :: Live(w, r) && Live(w, q) ==> w.tasks[r].pass <= w.tasks[q].pass + BIG_STRIDE / 2
  }

  /** The next fetch does not wrap the pass it advances. */
  ghost predicate NoWrap(w: World) {
    w.ready != [] && Next(w) in w.tasks && w.tasks[Next(w)].priority >= 1 ==>
      w.tasks[Next(w)].pass + Stride(w.tasks[Next(w)].priority) < WORD
  }

  /** When the processor is idle, the chosen task has the smallest pass of all. */
  lemma NextIsLowest(w: World, q: nat)
    requires Placed(w) && w.current.None? && w.ready != [] && Live(w, q)
    ensures Next(w) in w.tasks && q in w.ready && w.tasks[Next(w)].pass <= w.tasks[q].pass
  {
    hide NoDup;
    assert Next(w) in w.ready;
    assert q in w.ready by {
      assert w.tasks[q].status != Running;
    }
    var i :| 0 <= i < |w.ready| && w.ready[i] == q;
    assert PassesOf(w)[i] == w.tasks[q].pass;
  }

  lemma FetchKeepsSpread(w: World)
    requires Inv(w) && w.current.None? && Spread(w) && NoWrap(w)
    ensures Spread(Fetch(w))
  {
    hide Tree, PidsOk, History, NoDup, Fetch, Next, Stride;
    if w.ready == [] {
      NothingToFetch(w);
    } else {
      FetchOne(w);
      var v, n := Fetch(w), Next(w);
      assert v.tasks[n].pass == w.tasks[n].pass + Stride(w.tasks[n].priority);
      forall r, q | Live(v, r) && Live(v, q) ensures v.tasks[r].pass <= v.tasks[q].pass + BIG_STRIDE / 2 {
        assert Live(w, r) && Live(w, q);
        NextIsLowest(w, r);
        NextIsLowest(w, q);
      }
    }
  }

  /** A fetch that wraps breaks the bound as soon as another task is live. */
  lemma WrapBreaksSpread(w: World, q: nat)
    requires Inv(w) && w.current.None? && !NoWrap(w) && Live(w, q) && q != Next(w)
    ensures !Spread(Fetch(w))
  {
    hide Tree, PidsOk, History, NoDup, Fetch, Next, Stride;
    FetchOne(w);
    var v, n := Fetch(w), Next(w);
    NextIsLowest(w, q);
    assert Live(v, q) && Live(v, n);
    assert v.tasks[n].pass == w.tasks[n].pass + Stride(w.tasks[n].priority) - WORD;
    assert v.tasks[q].pass > v.tasks[n].pass + BIG_STRIDE / 2;
  }

  /** Steps that leave passes alone and bring nobody to life. */
  lemma SamePassesKeepSpread(w: World, v: World)
    requires Spread(w) && forall r :: Live(v, r) ==> Live(w, r) && v.tasks[r].pass == w.tasks[r].pass
    ensures Spread(v)
  {
  }

  lemma ForkKeepsSpread(w: World)
    requires Inv(w) && w.current.Some? && Spread(w)
    ensures Spread(Born(w, true))
  {
    hide Tree, PidsOk, History, Born;
    BornShape(w, true);
    CurrentRuns(w);
    hide Placed, Priorities;
    var v, c := Born(w, true), w.current.value;
    assert Live(w, c);
    forall r, q | Live(v, r) && Live(v, q) ensures v.tasks[r].pass <= v.tasks[q].pass + BIG_STRIDE / 2 {
      var r', q' := if r == w.next then c else r, if q == w.next then c else q;
      assert Live(w, r') && Live(w, q');
    }
  }

  /** `spawn` starts the child at pass 0: the bound survives exactly while no live task
      has gone beyond it. */
  lemma SpawnSpread(w: World)
    requires Inv(w) && w.current.Some? && Spread(w)
    ensures Spread(Born(w, false)) <==> forall r :: Live(w, r) ==> w.tasks[r].pass <= BIG_STRIDE / 2
  {
    hide Tree, PidsOk, History, Born;
    BornShape(w, false);
    CurrentRuns(w);
    hide Placed, Priorities;
    var v := Born(w, false);
    assert Live(v, w.next) && v.tasks[w.next].pass == 0;
    forall r | r in w.tasks ensures Live(v, r) <==> Live(w, r) {
    }
    forall r | r in w.tasks ensures v.tasks[r].pass == w.tasks[r].pass {
    }
  }

  lemma ExitPasses(w: World, code: int, r: nat)
    requires Inv(w) && w.current.Some? && Live(Exit(w, code), r)
    ensures Live(w, r) && Exit(w, code).tasks[r].pass == w.tasks[r].pass
  {
    hide Tree, PidsOk, History, Priorities, Exit;
    ExitShape(w, code);
    CurrentRuns(w);
  }

  lemma WaitPasses(w: World, pid: int, r: nat)
    requires Inv(w) && w.current.Some? && Live(Wait(w, pid).1, r)
    ensures Live(w, r) && Wait(w, pid).1.tasks[r].pass == w.tasks[r].pass
  {
    hide PidsOk, History, Priorities, Wait, ReapChild, Tree;
    var c, k := WaitCases(w, pid);
    if Wait(w, pid).0 >= 0 {
      ReapShape(w, c, k);
    }
  }

  lemma StepKeepsSpread(w: World, op: Op)
    requires Inv(w) && Enabled(w, op) && Spread(w) && !op.DoSpawn? && (op.DoFetch? ==> NoWrap(w))
    ensures Spread(Do(w, op))
  {
    hide Inv, Fetch, Born, Exit, Wait, Spread, NoWrap;
    match op {
      case DoFetch => FetchKeepsSpread(w);
      case DoFork => ForkKeepsSpread(w);
      case DoExit(code) =>
        forall r | Live(Exit(w, code), r) ensures Live(w, r) && Exit(w, code).tasks[r].pass == w.tasks[r].pass {
          ExitPasses(w, code, r);
        }
        SamePassesKeepSpread(w, Exit(w, code));
      case DoWait(pid) =>
        forall r | Live(Wait(w, pid).1, r) ensures Live(w, r) && Wait(w, pid).1.tasks[r].pass == w.tasks[r].pass {
          WaitPasses(w, pid, r);
        }
        SamePassesKeepSpread(w, Wait(w, pid).1);
      case _ =>
        QuietPasses(w, op);
        SamePassesKeepSpread(w, Do(w, op));
    }
  }

  lemma QuietPasses(w: World, op: Op)
    requires Inv(w) && Enabled(w, op) && (op.DoYield? || op.DoSetPriority?)
    ensures forall r :: Live(Do(w, op), r) ==> Live(w, r) && Do(w, op).tasks[r].pass == w.tasks[r].pass
  {
    hide Tree, PidsOk, History, Priorities;
    CurrentRuns(w);
  }

  // ----- no pass wraps in the first 2^21 fetches

  function Fetches(ops: seq<Op>): nat {
    if ops == [] then 0 else (if ops[0].DoFetch? then 1 else 0) + Fetches(ops[1..])
  }

  ghost predicate PassBelow(w: World, f: nat) {
    forall r :: r in w.tasks ==> w.tasks[r].pass <= f * (BIG_STRIDE / 2)
  }

  const HALF: nat := 0x7FF_FFFF_FFFF
  const MANY: nat := 0x20_0000

  lemma StepPassBelow(w: World, op: Op, f: nat)
    requires Inv(w) && Enabled(w, op) && PassBelow(w, f) && f < MANY
    ensures NoWrap(w)
    ensures PassBelow(Do(w, op), if op.DoFetch? then f + 1 else f)
  {
    hide Inv, Fetch, Born, Exit, Wait, Stride;
    assert NoWrap(w) by {
      PassBelowNoWrap(w, f);
    }
    hide NoWrap;
    match op {
      case DoFetch => FetchPassBelow(w, f);
      case DoFork => BirthPassBelow(w, true, f);
      case DoSpawn => BirthPassBelow(w, false, f);
      case DoExit(code) => ExitPassBelow(w, code, f);
      case DoWait(pid) => WaitPassBelow(w, pid, f);
      case _ => QuietPassBelow(w, op, f);
    }
  }

  lemma PassBelowNoWrap(w: World, f: nat)
    requires Inv(w) && PassBelow(w, f) && f < MANY
    ensures NoWrap(w)
  {
    hide Tree, PidsOk, History, Placed, Stride, Next;
    assert f * HALF + HALF < WORD;
  }

  lemma FetchPassBelow(w: World, f: nat)
    requires Inv(w) && PassBelow(w, f) && NoWrap(w)
    ensures PassBelow(Fetch(w), f + 1)
  {
    hide Tree, PidsOk, History, NoDup, Fetch, Next, Stride;
    assert (f + 1) * HALF == f * HALF + HALF;
    if w.ready == [] {
      NothingToFetch(w);
    } else {
      FetchOne(w);
    }
  }

  lemma BirthPassBelow(w: World, inherit: bool, f: nat)
    requires Inv(w) && w.current.Some? && PassBelow(w, f)
    ensures PassBelow(Born(w, inherit), f)
  {
    hide Tree, PidsOk, History, Born, Priorities;
    BornShape(w, inherit);
  }

  lemma ExitPassBelow(w: World, code: int, f: nat)
    requires Inv(w) && w.current.Some? && PassBelow(w, f)
    ensures PassBelow(Exit(w, code), f)
  {
    hide Tree, PidsOk, History, Priorities, Exit;
    ExitShape(w, code);
  }

  lemma WaitPassBelow(w: World, pid: int, f: nat)
    requires Inv(w) && w.current.Some? && PassBelow(w, f)
    ensures PassBelow(Wait(w, pid).1, f)
  {
    hide PidsOk, History, Priorities, Wait, ReapChild, Tree;
    var c, k := WaitCases(w, pid);
    if Wait(w, pid).0 >= 0 {
      ReapShape(w, c, k);
    }
  }

  lemma QuietPassBelow(w: World, op: Op, f: nat)
    requires Inv(w) && PassBelow(w, f) && (op.DoYield? || op.DoSetPriority?)
    ensures PassBelow(Do(w, op), f)
  {
    hide Tree, PidsOk, History, Priorities;
  }

  /** In the first 2^21 fetches no pass wraps, whatever the priorities and whoever is
      born. */
  lemma {:induction false} RunNeverWraps(w: World, ops: seq<Op>, f: nat)
    requires Inv(w) && EnabledRun(w, ops) && PassBelow(w, f) && f + Fetches(ops) <= MANY
    ensures NeverWraps(w, ops) && PassBelow(Exec(w, ops), f + Fetches(ops))
    decreases |ops|
  {
    hide Inv, Do, PassBelow, NoWrap, Enabled;
    if ops != [] {
      var op := ops[0];
      if f < MANY {
        StepPassBelow(w, op, f);
      } else {
        NonFetchPassBelow(w, op, f);
      }
      StepKeeps(w, op);
      RunNeverWraps(Do(w, op), ops[1..], if op.DoFetch? then f + 1 else f);
    }
  }

  lemma NonFetchPassBelow(w: World, op: Op, f: nat)
    requires Inv(w) && Enabled(w, op) && PassBelow(w, f) && !op.DoFetch?
    ensures PassBelow(Do(w, op), f)
  {
    hide Inv, Born, Exit, Wait, PassBelow;
    match op {
      case DoFork => BirthPassBelow(w, true, f);
      case DoSpawn => BirthPassBelow(w, false, f);
      case DoExit(code) => ExitPassBelow(w, code, f);
      case DoWait(pid) => WaitPassBelow(w, pid, f);
      case _ => QuietPassBelow(w, op, f);
    }
  }

  // ----- spread over whole runs

  ghost predicate NeverWraps(w: World, ops: seq<Op>)
    decreases |ops|
  {
    ops != [] ==> (ops[0].DoFetch? ==> NoWrap(w)) && NeverWraps(Do(w, ops[0]), ops[1..])
  }

  /** Every live pass is still within half of the big stride of 0. */
  ghost predicate Early(w: World) {
    forall r :: Live(w, r) ==> w.tasks[r].pass <= BIG_STRIDE / 2
  }

  ghost predicate EarlySpawns(w: World, ops: seq<Op>)
    decreases |ops|
  {
    ops != [] ==> (ops[0].DoSpawn? ==> Early(w)) && EarlySpawns(Do(w, ops[0]), ops[1..])
  }

  /** No task but the next one is live. */
  ghost predicate Alone(w: World) {
    w.ready != [] && forall r :: Live(w, r) ==> r == Next(w)
  }

  /** What a step must meet to keep the spread: a spawn is early, and a fetch does not
      wrap unless there is only one task. */
  ghost predicate Careful(w: World, op: Op) {
    (op.DoSpawn? ==> Early(w)) && (op.DoFetch? ==> NoWrap(w) || Alone(w))
  }

  ghost predicate CarefulRun(w: World, ops: seq<Op>)
    decreases |ops|
  {
    ops != [] ==> Careful(w, ops[0]) && CarefulRun(Do(w, ops[0]), ops[1..])
  }

  /** The spread holds in every state of the run. */
  ghost predicate SpreadThroughout(w: World, ops: seq<Op>)
    decreases |ops|
  {
    Spread(w) && (ops != [] ==> SpreadThroughout(Do(w, ops[0]), ops[1..]))
  }

  lemma StepSpreadIff(w: World, op: Op)
    requires Inv(w) && Enabled(w, op) && Spread(w)
    ensures Spread(Do(w, op)) <==> Careful(w, op)
  {
    hide Inv, Fetch, Born, Exit, Wait, Spread, NoWrap, Alone, Live, Next;
    if op.DoSpawn? {
      SpawnSpread(w);
    } else if op.DoFetch? {
      FetchSpreadIff(w);
    } else {
      StepKeepsSpread(w, op);
    }
  }

  /** A fetch keeps the spread if and only if it does not wrap or nobody else is live. */
  lemma FetchSpreadIff(w: World)
    requires Inv(w) && w.current.None? && Spread(w)
    ensures Spread(Fetch(w)) <==> NoWrap(w) || Alone(w)
  {
    hide Inv, Fetch, Spread, Next;
    if NoWrap(w) {
      FetchKeepsSpread(w);
    } else if Alone(w) {
      AloneSpread(w);
    } else {
      var q :| Live(w, q) && q != Next(w);
      WrapBreaksSpread(w, q);
    }
  }

  lemma AloneSpread(w: World)
    requires Inv(w) && w.current.None? && Alone(w)
    ensures Spread(Fetch(w))
  {
    hide Tree, PidsOk, History, NoDup, Fetch, Next, Stride;
    if w.ready == [] {
      NothingToFetch(w);
    } else {
      FetchOne(w);
    }
    forall r | Live(Fetch(w), r) ensures r == Next(w) {
      assert Live(w, r);
    }
  }

  /** The exact condition: the spread holds all along a run if and only if every step of
      the run is careful. */
  lemma {:induction false} RunSpreadIff(w: World, ops: seq<Op>)
    requires Inv(w) && EnabledRun(w, ops) && Spread(w)
    ensures SpreadThroughout(w, ops) <==> CarefulRun(w, ops)
    ensures CarefulRun(w, ops) ==> Spread(Exec(w, ops))
    decreases |ops|
  {
    hide Inv, Do, Spread, Careful, Enabled;
    if ops != [] {
      var op, v := ops[0], Do(w, ops[0]);
      StepSpreadIff(w, op);
      StepKeeps(w, op);
      if Careful(w, op) {
        RunSpreadIff(v, ops[1..]);
      } else {
        NotThroughout(v, ops[1..]);
      }
    }
  }

  lemma NotThroughout(w: World, ops: seq<Op>)
    requires !Spread(w)
    ensures !SpreadThroughout(w, ops)
  {
  }

  lemma {:induction false} CarefulIfNeverWraps(w: World, ops: seq<Op>)
    requires NeverWraps(w, ops) && EarlySpawns(w, ops)
    ensures CarefulRun(w, ops)
    decreases |ops|
  {
    hide Do, NoWrap, Early, Alone;
    if ops != [] {
      CarefulIfNeverWraps(Do(w, ops[0]), ops[1..]);
    }
  }

  /** A run in which no fetch wraps and each spawn is early keeps the spread. */
  lemma RunKeepsSpread(w: World, ops: seq<Op>)
    requires Inv(w) && EnabledRun(w, ops) && Spread(w) && NeverWraps(w, ops) && EarlySpawns(w, ops)
    ensures Spread(Exec(w, ops))
  {
    hide Inv, EnabledRun, Spread, Exec;
    CarefulIfNeverWraps(w, ops);
    RunSpreadIff(w, ops);
  }

  /** From boot: with early spawns the bound holds after every run of at most 2^21
      fetches. */
  lemma SpreadFromBoot(ops: seq<Op>)
    requires EnabledRun(Boot(), ops) && Fetches(ops) <= MANY && EarlySpawns(Boot(), ops)
    ensures Spread(Exec(Boot(), ops)) && PassBelow(Exec(Boot(), ops), Fetches(ops)) && Inv(Exec(Boot(), ops))
  {
    hide Exec, EnabledRun, Fetches, Inv, NeverWraps, EarlySpawns;
    BootInv();
    RunNeverWraps(Boot(), ops, 0);
    RunKeepsSpread(Boot(), ops);
    RunKeeps(Boot(), ops);
  }

  // ----- proportional share

  /** How often the fetches of a run choose task `r`. */
  ghost function Turns(w: World, ops: seq<Op>, r: nat): nat
    decreases |ops|
  {
    if ops == [] then 0
    else (if ops[0].DoFetch? && w.ready != [] && Next(w) == r then 1 else 0) + Turns(Do(w, ops[0]), ops[1..], r)
  }

  /** Task `r` lives through the run and keeps the given priority. */
  ghost predicate Steady(w: World, ops: seq<Op>, r: nat, priority: nat)
    decreases |ops|
  {
    Live(w, r) && w.tasks[r].priority == priority && (ops != [] ==> Steady(Do(w, ops[0]), ops[1..], r, priority))
  }

  lemma StepPass(w: World, op: Op, r: nat)
    requires Inv(w) && Enabled(w, op) && Live(w, r) && Live(Do(w, op), r) && (op.DoFetch? ==> NoWrap(w))
    ensures Do(w, op).tasks[r].pass == w.tasks[r].pass +
              if op.DoFetch? && w.ready != [] && Next(w) == r then Stride(w.tasks[r].priority) else 0
  {
    hide Tree, PidsOk, History, NoDup, Fetch, Next, Stride, Born, Exit, Wait;
    match op {
      case DoFetch =>
        if w.ready == [] {
          NothingToFetch(w);
        } else {
          FetchOne(w);
        }
      case DoFork => BornShape(w, true);
      case DoSpawn => BornShape(w, false);
      case DoExit(code) => ExitPasses(w, code, r);
      case DoWait(pid) => WaitPasses(w, pid, r);
      case _ => QuietPasses(w, op);
    }
  }

  /** A steady task advances by its stride once for each turn. */
  lemma {:induction false} TurnsAdvancePass(w: World, ops: seq<Op>, r: nat, priority: nat)
    requires Inv(w) && EnabledRun(w, ops) && Steady(w, ops, r, priority) && NeverWraps(w, ops) && priority >= 2
    ensures Live(Exec(w, ops), r)
    ensures Exec(w, ops).tasks[r].pass == w.tasks[r].pass + Turns(w, ops, r) * Stride(priority)
    decreases |ops|
  {
    hide Inv, Do, NoWrap, Enabled, Stride, Live;
    if ops != [] {
      LiveIsTask(w, r);
      var op, v := ops[0], Do(w, ops[0]);
      StepKeeps(w, op);
      LiveIsTask(v, r);
      StepPass(w, op, r);
      TurnsAdvancePass(v, ops[1..], r, priority);
      LiveIsTask(Exec(v, ops[1..]), r);
      var one := if op.DoFetch? && w.ready != [] && Next(w) == r then 1 else 0;
      var t := Turns(v, ops[1..], r);
      assert (one + t) * Stride(priority) == one * Stride(priority) + t * Stride(priority);
    } else {
      LiveIsTask(w, r);
    }
  }

  lemma LiveIsTask(w: World, r: nat)
    requires Live(w, r)
    ensures r in w.tasks
  {
  }

  /** `ta` turns at priority `pa` are no more than the share of `tb` turns at priority `pb`:
      up to the rounding of strides, ta / pa is at most tb / pb + 1 / 2. */
  ghost predicate WithinShare(ta: nat, pa: nat, tb: nat, pb: nat) {
    && 2 * (ta * pb) * (BIG_STRIDE - pa + 1) <= BIG_STRIDE * (2 * (tb * pa) + pa * pb)
    && (2 * (ta * pb) * pa <= BIG_STRIDE ==> 2 * (ta * pb) <= 2 * (tb * pa) + pa * pb)
  }

  lemma StridesToPriorities(ta: nat, pa: nat, tb: nat, pb: nat)
    requires pa >= 1 && pb >= 1 && ta * Stride(pa) <= tb * Stride(pb) + BIG_STRIDE / 2
    ensures WithinShare(ta, pa, tb, pb)
  {
    hide Stride, IsQuotient, WithinShare;
    QuotientShare(ta, pa, Stride(pa), tb, pb, Stride(pb));
  }

  lemma QuotientShare(ta: nat, pa: nat, sa: nat, tb: nat, pb: nat, sb: nat)
    requires pa >= 1 && IsQuotient(sa, BIG_STRIDE, pa) && IsQuotient(sb, BIG_STRIDE, pb)
    requires ta * sa <= tb * sb + BIG_STRIDE / 2
    ensures WithinShare(ta, pa, tb, pb)
  {
    hide WithinShare;
    assert BIG_STRIDE - pa + 1 <= sa * pa;
    assert sb * pb <= BIG_STRIDE;
    hide IsQuotient;
    ProductShare(ta, pa, sa, tb, pb, sb);
    WholeShare(ta * pb, tb * pa, pa * pb, pa);
    IsWithin(ta, pa, tb, pb);
  }

  lemma IsWithin(ta: nat, pa: nat, tb: nat, pb: nat)
    requires 2 * (ta * pb) * (BIG_STRIDE - pa + 1) <= BIG_STRIDE * (2 * (tb * pa) + pa * pb)
    requires 2 * (ta * pb) * pa <= BIG_STRIDE ==> 2 * (ta * pb) <= 2 * (tb * pa) + pa * pb
    ensures WithinShare(ta, pa, tb, pb)
  {
  }

  lemma ProductShare(ta: nat, pa: nat, sa: nat, tb: nat, pb: nat, sb: nat)
    requires BIG_STRIDE - pa + 1 <= sa * pa && sb * pb <= BIG_STRIDE && ta * sa <= tb * sb + BIG_STRIDE / 2
    ensures (ta * pb) * (BIG_STRIDE - pa + 1) <= (tb * pa) * BIG_STRIDE + BIG_STRIDE / 2 * (pa * pb)
  {
    Regroup(ta, pb, sa, pa);
    Regroup(tb, pa, sb, pb);
    ShareBound(ta * pb, tb * pa, pa * pb, BIG_STRIDE - pa + 1, sa * pa, sb * pb, ta * sa, tb * sb);
  }

  lemma ShareBound(x: nat, y: nat, z: nat, a: int, b: nat, c: nat, u: nat, v: nat)
    requires a <= b && c <= BIG_STRIDE && u <= v + BIG_STRIDE / 2 && x * b == u * z && y * c == v * z
    ensures x * a <= y * BIG_STRIDE + BIG_STRIDE / 2 * z
  {
    Scaled(x, a, b);
    Scaled(y, c, BIG_STRIDE);
    Scaled(z, u, v + BIG_STRIDE / 2);
  }

  lemma Scaled(k: nat, a: int, b: int)
    requires a <= b
    ensures k * a <= k * b
  {
  }

  lemma Regroup(a: nat, b: nat, c: nat, d: nat)
    ensures (a * b) * (c * d) == (a * c) * (d * b) == (a * c) * (b * d)
  {
    calc {
      (a * b) * (c * d);
      a * (b * (c * d));
      { assert b * (c * d) == c * (d * b); }
      a * (c * (d * b));
      (a * c) * (d * b);
    }
  }

  lemma WholeShare(x: nat, y: nat, z: nat, pa: nat)
    requires x * (BIG_STRIDE - pa + 1) <= y * BIG_STRIDE + BIG_STRIDE / 2 * z && pa >= 1
    ensures 2 * x * (BIG_STRIDE - pa + 1) <= BIG_STRIDE * (2 * y + z)
    ensures 2 * x * pa <= BIG_STRIDE ==> 2 * x <= 2 * y + z
  {
    assert x * (BIG_STRIDE - pa + 1) == x * BIG_STRIDE - x * pa + x;
    if 2 * x * pa <= BIG_STRIDE && 2 * x > 2 * y + z {
      Scaled(BIG_STRIDE, 2 * y + z + 1, 2 * x);
      assert false;
    }
  }

  /** Two tasks that start level share the processor in proportion to their priorities:
      turns times stride stay within half of the big stride of each other, and so do turns
      per priority within a half. */
  lemma ProportionalShare(w: World, ops: seq<Op>, a: nat, b: nat, pa: nat, pb: nat)
    requires Inv(w) && EnabledRun(w, ops) && Spread(w) && NeverWraps(w, ops) && EarlySpawns(w, ops)
    requires pa >= 2 && pb >= 2 && Steady(w, ops, a, pa) && Steady(w, ops, b, pb) && w.tasks[a].pass == w.tasks[b].pass
    ensures Turns(w, ops, a) * Stride(pa) <= Turns(w, ops, b) * Stride(pb) + BIG_STRIDE / 2
    ensures Turns(w, ops, b) * Stride(pb) <= Turns(w, ops, a) * Stride(pa) + BIG_STRIDE / 2
    ensures WithinShare(Turns(w, ops, a), pa, Turns(w, ops, b), pb)
    ensures WithinShare(Turns(w, ops, b), pb, Turns(w, ops, a), pa)
  {
    hide Inv, Exec, EnabledRun, NeverWraps, EarlySpawns, Turns, Stride, WithinShare;
    RunKeepsSpread(w, ops);
    TurnsAdvancePass(w, ops, a, pa);
    TurnsAdvancePass(w, ops, b, pb);
    StridesToPriorities(Turns(w, ops, a), pa, Turns(w, ops, b), pb);
    StridesToPriorities(Turns(w, ops, b), pb, Turns(w, ops, a), pa);
  }

  /** The same from boot: after any run `before`, during any further run, within 2^21
      fetches in all. */
  lemma ShareFromBoot(before: seq<Op>, ops: seq<Op>, a: nat, b: nat, pa: nat, pb: nat)
    requires EnabledRun(Boot(), before) && EarlySpawns(Boot(), before) && Fetches(before) + Fetches(ops) <= MANY
    requires EnabledRun(Exec(Boot(), before), ops) && EarlySpawns(Exec(Boot(), before), ops)
    requires pa >= 2 && pb >= 2 && Steady(Exec(Boot(), before), ops, a, pa) && Steady(Exec(Boot(), before), ops, b, pb)
    requires Exec(Boot(), before).tasks[a].pass == Exec(Boot(), before).tasks[b].pass
    ensures var w := Exec(Boot(), before);
            && Turns(w, ops, a) * Stride(pa) <= Turns(w, ops, b) * Stride(pb) + BIG_STRIDE / 2
            && Turns(w, ops, b) * Stride(pb) <= Turns(w, ops, a) * Stride(pa) + BIG_STRIDE / 2
            && WithinShare(Turns(w, ops, a), pa, Turns(w, ops, b), pb)
            && WithinShare(Turns(w, ops, b), pb, Turns(w, ops, a), pa)
  {
    hide Inv, Exec, EnabledRun, NeverWraps, EarlySpawns, Turns, Stride, Fetches, PassBelow, Spread, WithinShare;
    SpreadFromBoot(before);
    var w := Exec(Boot(), before);
    RunNeverWraps(w, ops, Fetches(before));
    ProportionalShare(w, ops, a, b, pa, pb);
  }

  // ----- bounded waiting in the kernel

  function ItemOf(w: World, r: nat): Item {
    if r in w.tasks then Item(r, w.tasks[r].pass, w.tasks[r].priority) else Item(r, 0, 0)
  }

  /** The ready queue as the scheduler sees it. */
  function QueueOf(w: World): (q: seq<Item>)
    ensures |q| == |w.ready| && forall i :: 0 <= i < |q| ==> q[i] == ItemOf(w, w.ready[i])
  {
    seq(|w.ready|, i requires 0 <= i < |w.ready| => ItemOf(w, w.ready[i]))
  }

  lemma QueuePasses(w: World)
    ensures Passes(QueueOf(w)) == PassesOf(w)
  {
  }

  lemma QueueSchedulable(w: World)
    requires Inv(w)
    ensures Schedulable(QueueOf(w))
  {
    hide Tree, PidsOk, History;
    forall i | 0 <= i < |w.ready| ensures QueueOf(w)[i].priority >= 2 {
      assert w.ready[i] in w.ready;
    }
  }

  /** The state after a fetch and the yield of the chosen task. */
  lemma FetchYieldShape(w: World)
    requires Inv(w) && w.current.None? && w.ready != []
    ensures var k, v, n := Pick(PassesOf(w)), Yield(Fetch(w)), Next(w);
            && n == w.ready[k] && n in w.tasks && w.tasks[n].priority >= 2
            && v.current.None? && v.ready == w.ready[..k] + w.ready[k + 1..] + [n]
            && v.tasks == w.tasks[n := w.tasks[n].(pass := (w.tasks[n].pass + Stride(w.tasks[n].priority)) % WORD)]
  {
    hide Tree, PidsOk, History, Stride, Pick, NoDup;
    FetchOne(w);
    var n, v := Next(w), Yield(Fetch(w));
    assert v.tasks == w.tasks[n := w.tasks[n].(pass := (w.tasks[n].pass + Stride(w.tasks[n].priority)) % WORD)];
  }

  /** Fetch and yield in the kernel are one round of the scheduler. */
  lemma FetchYieldIsRound(w: World)
    requires Inv(w) && w.current.None? && w.ready != []
    ensures Schedulable(QueueOf(w)) && Next(w) == Chosen(QueueOf(w)).id
    ensures Yield(Fetch(w)).current.None? && QueueOf(Yield(Fetch(w))) == Round(QueueOf(w))
  {
    hide Tree, PidsOk, History, Stride, Pick, Fetch, Yield, Next, Priorities;
    QueueSchedulable(w);
    QueuePasses(w);
    FetchYieldShape(w);
    var k, v, n := Pick(PassesOf(w)), Yield(Fetch(w)), Next(w);
    forall j | 0 <= j < |v.ready| ensures QueueOf(v)[j] == Round(QueueOf(w))[j] {
      if j < |w.ready| - 1 {
        var i := if j < k then j else j + 1;
        assert v.ready[j] == w.ready[i] && w.ready[i] != n;
      }
    }
  }

  /** The tasks that `n` fetches choose when each chosen task yields. */
  ghost function Served(w: World, n: nat): seq<nat>
    decreases n
  {
    if n == 0 || w.ready == [] then [] else [Next(w)] + Served(Yield(Fetch(w)), n - 1)
  }

  lemma {:induction false} ServedArePicks(w: World, n: nat)
    requires Inv(w) && w.current.None? && w.ready != []
    ensures Schedulable(QueueOf(w)) && Served(w, n) == Picks(QueueOf(w), n)
    decreases n
  {
    hide Inv, Fetch, Yield, Next, Round;
    QueueSchedulable(w);
    if n > 0 {
      FetchYieldIsRound(w);
      StepKeeps(w, DoFetch);
      FetchRuns(w);
      StepKeeps(Fetch(w), DoYield);
      ServedArePicks(Yield(Fetch(w)), n - 1);
    }
  }

  lemma FetchRuns(w: World)
    requires Inv(w) && w.ready != []
    ensures Fetch(w).current.Some?
  {
    hide Tree, PidsOk, History, Next, Fetch;
    FetchOne(w);
  }

  /** No ready task waits for more fetches than the sum over the others of
      (BIG_STRIDE / 2) / stride + 1. */
  lemma NoTaskStarves(w: World, i: nat)
    requires Inv(w) && w.current.None? && Spread(w) && i < |w.ready|
    requires forall r :: r in w.tasks ==> w.tasks[r].priority <= BIG_STRIDE
    requires PassOf(w, w.ready[i]) + BIG_STRIDE / 2 < WORD
    ensures w.ready[i] in Served(w, WaitBound(QueueOf(w), w.ready[i]) + 1)
    ensures w.ready[i] in Served(w, OtherPriorities(QueueOf(w), w.ready[i]) + 1)
  {
    hide Tree, PidsOk, History, Served, Picks, WaitBound, OtherPriorities;
    var q := QueueOf(w);
    forall j | 0 <= j < |w.ready| ensures w.ready[j] in w.tasks && Live(w, w.ready[j]) {
      assert w.ready[j] in w.ready;
    }
    assert Fair(q);
    QueuePasses(w);
    assert Close(Passes(q));
    ServedArePicks(w, WaitBound(q, w.ready[i]) + 1);
    ServedArePicks(w, OtherPriorities(q, w.ready[i]) + 1);
    BoundedWait(q, i);
    WaitInPriorities(q, i);
  }

  ghost predicate Starved(w: World, i: nat)
    requires i < |w.ready|
  {
    exists r :: r in w.ready && r in w.tasks && w.tasks[r].priority > BIG_STRIDE && w.tasks[r].pass < PassOf(w, w.ready[i])
  }

  /** A ready task is ever served if and only if no ready task with stride 0 has a lower
      pass. */
  lemma ServedIffNotStarved(w: World, i: nat)
    requires Inv(w) && w.current.None? && i < |w.ready| && PassOf(w, w.ready[i]) + BIG_STRIDE / 2 < WORD
    ensures (exists n: nat :: w.ready[i] in Served(w, n)) <==> !Starved(w, i)
  {
    hide Tree, PidsOk, History, Served, Picks;
    var q := QueueOf(w);
    QueueSchedulable(w);
    forall j | 0 <= j < |w.ready| ensures w.ready[j] in w.tasks && q[j] == Item(w.ready[j], w.tasks[w.ready[j]].pass, w.tasks[w.ready[j]].priority) {
      assert w.ready[j] in w.ready;
    }
    assert Blocked(q, q[i].pass) <==> Starved(w, i);
    if Starved(w, i) {
      forall n: nat ensures w.ready[i] !in Served(w, n) {
        ServedArePicks(w, n);
        BlockedStarves(q, i, n);
      }
    } else {
      ServedArePicks(w, WaitTime(q, i) + 1);
      NoStarvation(q, i);
    }
  }

  /** None of the next `n` fetches wraps when each chosen task yields. */
  ghost predicate Smooth(w: World, n: nat)
    decreases n
  {
    n > 0 ==> NoWrap(w) && Smooth(Yield(Fetch(w)), n - 1)
  }

  lemma {:induction false} SmoothQueue(w: World, n: nat)
    requires Inv(w) && w.current.None? && w.ready != [] && Smooth(w, n)
    ensures Schedulable(QueueOf(w)) && NoneWraps(QueueOf(w), n)
    decreases n
  {
    hide Inv, Fetch, Yield, Round, Stride, Pick;
    QueueSchedulable(w);
    if n > 0 {
      FetchYieldIsRound(w);
      NextItem(w);
      StepKeeps(w, DoFetch);
      FetchRuns(w);
      StepKeeps(Fetch(w), DoYield);
      SmoothQueue(Yield(Fetch(w)), n - 1);
    }
  }

  lemma NextItem(w: World)
    requires Inv(w) && w.current.None? && w.ready != []
    ensures Next(w) in w.tasks && w.tasks[Next(w)].priority >= 2
    ensures Chosen(QueueOf(w)) == Item(Next(w), w.tasks[Next(w)].pass, w.tasks[Next(w)].priority)
  {
    hide Tree, PidsOk, History, Pick;
    QueuePasses(w);
    FetchOne(w);
  }

  /** Tasks that are level in pass and priority are served first come, first served, as
      long as no fetch wraps. */
  lemma LevelTasksAreFifo(w: World, pass: nat, priority: nat, n: nat)
    requires Inv(w) && w.current.None? && w.ready != [] && priority >= 2 && Smooth(w, n)
    requires forall i :: 0 <= i < |w.ready| ==> ItemOf(w, w.ready[i]) == Item(w.ready[i], pass, priority)
    ensures Served(w, n) == FifoPicks(w.ready, n)
  {
    hide Inv, Served, Picks, FifoPicks, Stride, Smooth, NoneWraps;
    var q := QueueOf(w);
    SmoothQueue(w, n);
    ServedArePicks(w, n);
    assert Level(q, |q|, pass, priority);
    StrideIsFifo(q, |q|, pass, priority, n);
    assert Ids(q) == w.ready;
  }
}
