/** What the process calls mean over whole runs: priorities, exit codes and pids. */
module ProcessCalls {
  import opened Common
  import opened StrideScheduler
  import opened Recycling
  import opened Processes

  // ----- priorities

  /** The step is a successful set_priority call of task `r`. */
  ghost predicate Sets(w: World, op: Op, r: nat) {
    op.DoSetPriority? && op.prio >= 2 && w.current == Some(r)
  }

  /** Over one step a task keeps its priority unless it sets it itself; a new task has its
      parent's. */
  lemma StepPriority(w: World, op: Op, r: nat)
    requires Inv(w) && Enabled(w, op) && r in Do(w, op).tasks
    ensures r !in w.tasks ==> r == w.next && (op.DoFork? || op.DoSpawn?)
    ensures r !in w.tasks ==> w.current.value in w.tasks && Do(w, op).tasks[r].priority == w.tasks[w.current.value].priority
    ensures r in w.tasks ==>
              Do(w, op).tasks[r].priority == if Sets(w, op, r) then op.prio else w.tasks[r].priority
  {
    hide Tree, PidsOk, History, NoDup, Fetch, Next, Stride, Born, Exit, Wait, SetPriority, ReapChild;
    match op {
      case DoFetch =>
        if w.ready == [] {
          NothingToFetch(w);
        } else {
          FetchOne(w);
        }
      case DoYield => CurrentRuns(w);
      case DoFork => BornShape(w, true);
      case DoSpawn => BornShape(w, false);
      case DoExit(code) => ExitShape(w, code);
      case DoWait(pid) =>
        var c, k := WaitCases(w, pid);
        if Wait(w, pid).0 >= 0 {
          ReapShape(w, c, k);
        }
      case DoSetPriority(prio) =>
        CurrentRuns(w);
        SetPriorityAnswers(w, prio);
    }
  }

  lemma StepNext(w: World, op: Op)
    requires Inv(w) && Enabled(w, op)
    ensures w.next <= Do(w, op).next
  {
    hide Tree, PidsOk, History, Placed, Priorities, Pick, Stride, Issue, FirstReapable;
  }

  /** Task `r` makes no successful set_priority call in the run. */
  ghost predicate NoOwnPriority(w: World, ops: seq<Op>, r: nat)
    decreases |ops|
  {
    ops != [] ==>
      && !Sets(w, ops[0], r)
      && NoOwnPriority(Do(w, ops[0]), ops[1..], r)
  }

  /** A task that is there at the end was there from its birth on, with one priority. */
  lemma {:induction false} PriorityKept(w: World, ops: seq<Op>, r: nat)
    requires Inv(w) && EnabledRun(w, ops) && NoOwnPriority(w, ops, r) && r < w.next && r in Exec(w, ops).tasks
    ensures r in w.tasks && Exec(w, ops).tasks[r].priority == w.tasks[r].priority
    decreases |ops|
  {
    hide Inv, Do, Enabled;
    if ops != [] {
      StepKeeps(w, ops[0]);
      StepNext(w, ops[0]);
      PriorityKept(Do(w, ops[0]), ops[1..], r);
      StepPriority(w, ops[0], r);
    }
  }

  /** After set_priority(prio), each turn that the task gets before it calls set_priority
      again advances its pass by the quotient of the big stride and `prio`. */
  lemma TurnAfterSetPriority(w: World, prio: int, ops: seq<Op>)
    requires Inv(w) && w.current.Some? && prio >= 2
    requires EnabledRun(Do(w, DoSetPriority(prio)), ops) && NoOwnPriority(Do(w, DoSetPriority(prio)), ops, w.current.value)
    requires var v := Exec(Do(w, DoSetPriority(prio)), ops);
             v.current.None? && v.ready != [] && Next(v) == w.current.value
    ensures var c, v := w.current.value, Exec(Do(w, DoSetPriority(prio)), ops);
            && c in v.tasks && c in Fetch(v).tasks && Fetch(v).current == Some(c)
            && exists q: nat :: Advances(v.tasks[c].pass, Fetch(v).tasks[c].pass, q) && IsQuotient(q, BIG_STRIDE, prio)
  {
    hide Tree, PidsOk, History, NoDup, Exec, EnabledRun, NoOwnPriority, Fetch, Next, Pick, Stride;
    var c, u := w.current.value, Do(w, DoSetPriority(prio));
    CurrentRuns(w);
    SetPriorityAnswers(w, prio);
    StepKeeps(w, DoSetPriority(prio));
    RunKeeps(u, ops);
    var v := Exec(u, ops);
    FetchOne(v);
    TaskIsOld(u, c);
    PriorityKept(u, ops, c);
    assert Advances(v.tasks[c].pass, Fetch(v).tasks[c].pass, Stride(prio));
  }

  ghost predicate Advances(pass: nat, pass': nat, q: nat) {
    pass' == (pass + q) % WORD
  }

  lemma TaskIsOld(w: World, r: nat)
    requires Inv(w) && r in w.tasks
    ensures r < w.next
  {
    hide PidsOk, History, Placed, Priorities, ChildrenOk, ParentOk;
  }

  /** In a run from boot without set_priority every task has the initial priority. */
  lemma {:induction false} InitialPriority(w: World, ops: seq<Op>, r: nat)
    requires Inv(w) && EnabledRun(w, ops) && r in Exec(w, ops).tasks
    requires forall op :: op in ops ==> !(op.DoSetPriority? && op.prio >= 2)
    requires forall q :: q in w.tasks ==> w.tasks[q].priority == 16
    ensures Exec(w, ops).tasks[r].priority == 16
    decreases |ops|
  {
    hide Inv, Do, Enabled;
    if ops != [] {
      var op, v := ops[0], Do(w, ops[0]);
      assert op in ops;
      StepKeeps(w, op);
      forall q | q in v.tasks ensures v.tasks[q].priority == 16 {
        StepPriority(w, op, q);
      }
      InitialPriority(v, ops[1..], r);
    }
  }

  lemma BootPriority(ops: seq<Op>, r: nat)
    requires EnabledRun(Boot(), ops) && r in Exec(Boot(), ops).tasks
    requires forall op :: op in ops ==> !(op.DoSetPriority? && op.prio >= 2)
    ensures Exec(Boot(), ops).tasks[r].priority == 16
  {
    hide Inv, Exec, EnabledRun;
    BootInv();
    InitialPriority(Boot(), ops, r);
  }

  // ----- exit codes

  /** Births and exits are recorded once. */
  lemma StepRecords(w: World, op: Op, r: nat)
    requires Inv(w) && Enabled(w, op)
    ensures r in w.births ==> r in Do(w, op).births && Do(w, op).births[r] == w.births[r]
    ensures r in w.exits ==> r in Do(w, op).exits && Do(w, op).exits[r] == w.exits[r]
  {
    hide Tree, PidsOk, Reaped, NoDup, Fetch, Next, Stride, Born, Exit, Wait, ReapChild, Priorities;
    match op {
      case DoFetch => FetchFrame(w);
      case DoFork => BornShape(w, true);
      case DoSpawn => BornShape(w, false);
      case DoExit(code) =>
        CurrentRuns(w);
        ExitShape(w, code);
      case DoWait(pid) =>
        var c, k := WaitCases(w, pid);
        if Wait(w, pid).0 >= 0 {
          ReapShape(w, c, k);
        }
      case _ =>
    }
  }

  lemma {:induction false} RunRecords(w: World, ops: seq<Op>, r: nat)
    requires Inv(w) && EnabledRun(w, ops)
    ensures r in w.births ==> r in Exec(w, ops).births && Exec(w, ops).births[r] == w.births[r]
    ensures r in w.exits ==> r in Exec(w, ops).exits && Exec(w, ops).exits[r] == w.exits[r]
    decreases |ops|
  {
    hide Inv, Do, Enabled;
    if ops != [] {
      StepKeeps(w, ops[0]);
      StepRecords(w, ops[0], r);
      RunRecords(Do(w, ops[0]), ops[1..], r);
    }
  }

  /** Whatever happens after exit(code): the task is a zombie with that code, or it was
      reaped and the waitpid that reaped it delivered its pid and that code. */
  lemma ExitCodeDelivered(w: World, code: int, ops: seq<Op>)
    requires Inv(w) && w.current.Some? && w.current != Some(INITPROC) && w.current.value in w.tasks
    requires EnabledRun(Do(w, DoExit(code)), ops)
    ensures var c, v := w.current.value, Exec(Do(w, DoExit(code)), ops);
            if c in v.tasks then v.tasks[c].status == Zombie && v.tasks[c].exitCode == code && v.tasks[c].pid == w.tasks[c].pid
            else exists i :: 0 <= i < |v.reaps| && v.reaps[i] == Reap(c, w.tasks[c].pid, code)
  {
    hide Tree, PidsOk, Placed, Priorities, NoDup, Exec, EnabledRun, Exit;
    var c, u := w.current.value, Do(w, DoExit(code));
    StepKeeps(w, DoExit(code));
    ExitShape(w, code);
    ExitFields(w, code, c);
    RunKeeps(u, ops);
    RunRecords(u, ops, c);
    ReapedWith(Exec(u, ops), c);
  }

  lemma ReapedWith(w: World, r: nat)
    requires History(w) && r in w.births && r in w.exits
    ensures r in w.tasks ==> w.tasks[r].status == Zombie && w.tasks[r].exitCode == w.exits[r] && w.tasks[r].pid == w.births[r]
    ensures r !in w.tasks ==> exists i :: 0 <= i < |w.reaps| && w.reaps[i] == Reap(r, w.births[r], w.exits[r])
  {
    if r !in w.tasks {
      var i :| 0 <= i < |w.reaps| && w.reaps[i].task == r;
      assert ReapOk(w, w.reaps[i]);
    }
  }
}
