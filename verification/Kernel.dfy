/** The kernel code behind the process steps, updating its state in place. */
module KernelCode {
  import opened Common
  import opened StrideScheduler
  import opened Recycling
  import opened Processes

  class Kernel {
    /** Control blocks by reference; a `TaskControlBlock` behind an `Arc`. */
    var tasks: map<nat, Tcb>
    var next: nat
    var ready: seq<nat>
    var current: Option<nat>
    var pids: Pool
    ghost var births: map<nat, nat>
    ghost var exits: map<nat, int>
    ghost var reaps: seq<Reap>

    ghost function State(): World
      reads this
    {
      World(tasks, next, ready, current, pids, births, exits, reaps)
    }

    /** Boot with INITPROC in the ready queue. */
    constructor ()
      ensures State() == Boot() && Inv(State())
    {
      tasks, next, ready, current, pids := Boot().tasks, 1, [INITPROC], None, Pool(1, []);
      births, exits, reaps := Boot().births, map[], [];
      BootInv();
    }

    /** The scan in `TaskManager::fetch`. */
    method Scan() returns (pos: nat)
      requires ready != [] && forall i :: 0 <= i < |ready| ==> ready[i] in tasks
      ensures pos == Pick(PassesOf(State()))
    {
      hide Pick;
      pos := 0;
      for idx := 1 to |ready|
        invariant pos < idx
        invariant forall j :: 0 <= j < idx ==> tasks[ready[pos]].pass <= tasks[ready[j]].pass
        invariant forall j :: 0 <= j < pos ==> tasks[ready[pos]].pass < tasks[ready[j]].pass
      {
        if tasks[ready[pos]].pass > tasks[ready[idx]].pass {
          pos := idx;
        }
      }
      PickIsUnique(PassesOf(State()), pos);
    }

    /** One round of `run_tasks`: `fetch`, then start the task. */
    method RunNext()
      requires Inv(State()) && current.None?
      modifies this
      ensures State() == Fetch(old(State())) && Inv(State())
    {
      hide Tree, PidsOk, History, Pick, Stride;
      FetchKeeps(State());
      if ready == [] {
        return;
      }
      forall i | 0 <= i < |ready| ensures ready[i] in tasks {
        assert ready[i] in ready;
      }
      var pos := Scan();
      var task := ready[pos];
      ready := ready[..pos] + ready[pos + 1..];
      var t := tasks[task];
      t := t.(pass := (t.pass + Stride(t.priority)) % WORD);
      t := t.(status := Running);
      tasks := tasks[task := t];
      current := Some(task);
    }

    /** `suspend_current_and_run_next` */
    method Suspend()
      requires Inv(State()) && current.Some?
      modifies this
      ensures State() == Yield(old(State())) && Inv(State())
    {
      hide Tree, PidsOk, History;
      YieldKeeps(State());
      var task := current.value;
      current := None;
      tasks := tasks[task := tasks[task].(status := Ready)];
      ready := ready + [task];
    }

    /** `pid_alloc` */
    method AllocPid() returns (pid: nat)
      modifies this`pids
      ensures (pid, pids) == Issue(old(pids))
    {
      if |pids.recycled| > 0 {
        pid := pids.recycled[|pids.recycled| - 1];
        pids := pids.(recycled := pids.recycled[..|pids.recycled| - 1]);
      } else {
        pids := pids.(current := pids.current + 1);
        pid := pids.current - 1;
      }
    }

    /** `sys_fork` and `sys_spawn`: the child is linked to the current task and made
        ready; its pid was held by no live task. */
    method NewChild(inherit: bool) returns (pid: nat)
      requires Inv(State()) && current.Some?
      modifies this
      ensures State() == Born(old(State()), inherit) && Inv(State())
      ensures pid !in LivePids(old(State())) && pid in LivePids(State())
    {
      hide Inv, Issue, LivePids;
      BornKeeps(State(), inherit);
      BornPid(State(), inherit);
      BornShape(State(), inherit);
      var c := current.value;
      ghost var w := State();
      pid := AllocPid();
      var parent := tasks[c];
      var child := Tcb(pid, Ready, Some(c), [], 0, if inherit then parent.pass else 0, parent.priority);
      tasks := tasks[c := parent.(children := parent.children + [next])];
      tasks := tasks[next := child];
      births := births[next := pid];
      ready := ready + [next];
      next := next + 1;
      assert State() == Born(w, inherit);
    }

    /** The loop of `exit_current_and_run_next`: INITPROC adopts the children. */
    method Reparent(kids: seq<nat>, ghost w: World, ghost task: nat, ghost code: int)
      requires tasks.Keys == w.tasks.Keys && INITPROC in tasks && task in tasks && task != INITPROC
      requires forall x :: x in kids ==> x in tasks && x != task && x != INITPROC
      requires forall r :: r in w.tasks && r != task ==> tasks[r] == w.tasks[r]
      modifies this`tasks
      ensures tasks.Keys == w.tasks.Keys && tasks[task] == old(tasks[task])
      ensures forall r :: r in w.tasks && r != task ==> tasks[r] == AfterExit(r, w.tasks[r], task, kids, code)
    {
      for i := 0 to |kids|
        invariant tasks.Keys == w.tasks.Keys && tasks[task] == old(tasks[task])
        invariant forall r :: r in w.tasks && r != task ==> tasks[r] == AfterExit(r, w.tasks[r], task, kids[..i], code)
      {
        assert kids[i] in kids;
        assert kids[..i + 1] == kids[..i] + [kids[i]];
        tasks := tasks[kids[i] := tasks[kids[i]].(parent := Some(INITPROC))];
        tasks := tasks[INITPROC := tasks[INITPROC].(children := tasks[INITPROC].children + [kids[i]])];
      }
      assert kids[..|kids|] == kids;
    }

    /** `exit_current_and_run_next` */
    method ExitCurrent(code: int)
      requires Inv(State()) && current.Some? && current != Some(INITPROC)
      modifies this
      ensures State() == Exit(old(State()), code) && Inv(State())
    {
      hide PidsOk, History, Priorities, NoDup, Tree, AfterExit, Placed;
      ghost var w := State();
      ExitKeeps(w, code);
      CurrentRuns(w);
      InitprocLives(w);
      var task := current.value;
      KidsApart(w, task);
      ExitShape(w, code);
      hide Exit, Inv;
      current := None;
      tasks := tasks[task := tasks[task].(status := Zombie, exitCode := code)];
      Reparent(tasks[task].children, w, task, code);
      tasks := tasks[task := tasks[task].(children := [])];
      exits := exits[task := code];
      ExitedTask(w, task, code);
      assert tasks == Exit(w, code).tasks;
    }

    /** `sys_waitpid`: -1 without a matching child, -2 without a matching zombie; else
        the first matching zombie is dropped and `exitCode` is its code. */
    method WaitPid(pid: int) returns (r: int, exitCode: int)
      requires Inv(State()) && current.Some?
      modifies this
      ensures (r, State()) == Wait(old(State()), pid) && Inv(State())
      ensures r >= 0 ==> |reaps| == |old(reaps)| + 1 && reaps[|old(reaps)|].pid == r && reaps[|old(reaps)|].code == exitCode
    {
      hide PidsOk, History, Priorities, NoDup, Tree;
      ghost var w := State();
      WaitKeeps(w, pid);
      CurrentRuns(w);
      var c := current.value;
      var kids := tasks[c].children;
      KidsApart(w, c);
      hide Inv;
      exitCode := 0;
      var any := AnyMatch(kids, pid);
      if !any {
        return -1, 0;
      }
      var k := FindZombie(kids, pid);
      if k == |kids| {
        return -2, 0;
      }
      var child := tasks[kids[k]];
      tasks := tasks[c := tasks[c].(children := kids[..k] + kids[k + 1..])];
      tasks := tasks - {kids[k]};
      pids := Recycle(pids, child.pid);
      reaps := reaps + [Reap(kids[k], child.pid, child.exitCode)];
      return child.pid, child.exitCode;
    }

    method AnyMatch(kids: seq<nat>, pid: int) returns (any: bool)
      requires forall x :: x in kids ==> x in tasks
      ensures !any <==> forall i :: 0 <= i < |kids| ==> !Matches(State(), kids[i], pid)
    {
      any := false;
      for i := 0 to |kids|
        invariant !any <==> forall j :: 0 <= j < i ==> !Matches(State(), kids[j], pid)
      {
        assert kids[i] in kids;
        if pid == -1 || pid == tasks[kids[i]].pid {
          any := true;
          assert Matches(State(), kids[i], pid);
        }
      }
    }

    method FindZombie(kids: seq<nat>, pid: int) returns (k: nat)
      requires forall x :: x in kids ==> x in tasks
      ensures k == FirstReapable(State(), kids, pid)
    {
      hide FirstReapable;
      k := 0;
      while k < |kids| && !(tasks[kids[k]].status == Zombie && (pid == -1 || pid == tasks[kids[k]].pid))
        invariant 0 <= k <= |kids|
        invariant forall j :: 0 <= j < k ==> !Reapable(State(), kids[j], pid)
      {
        assert kids[k] in kids;
        k := k + 1;
      }
      var f := FirstReapable(State(), kids, pid);
      if k < |kids| {
        assert kids[k] in kids;
        assert Reapable(State(), kids[k], pid);
      }
    }

    /** `sys_set_priority` */
    method ChangePriority(prio: int) returns (r: int)
      requires Inv(State()) && current.Some?
      modifies this
      ensures (r, State()) == SetPriority(old(State()), prio) && Inv(State())
      ensures r == if prio >= 2 then prio else -1
      ensures prio >= 2 ==> current.value in tasks && tasks[current.value].priority == prio
    {
      hide PidsOk, History, Priorities, NoDup, Tree;
      SetPriorityKeeps(State(), prio);
      CurrentRuns(State());
      if prio < 2 {
        return -1;
      }
      tasks := tasks[current.value := tasks[current.value].(priority := prio)];
      r := prio;
    }
  }

  lemma InitprocLives(w: World)
    requires Inv(w)
    ensures INITPROC in w.tasks
  {
    hide PidsOk, History, Placed, Priorities;
  }

  lemma ExitedTask(w: World, task: nat, code: int)
    requires task in w.tasks
    ensures AfterExit(task, w.tasks[task], task, w.tasks[task].children, code) == w.tasks[task].(status := Zombie, exitCode := code, children := [])
  {
  }
}
