/** Processes as a state machine: the steps of fork, spawn, exit, waitpid, yield, fetch
    and set_priority, and what every run of them keeps. */
module Processes {
  import opened Common
  import opened StrideScheduler
  import opened Recycling

  /** Task control blocks are named by the order of their creation; INITPROC is first. */
  const INITPROC: nat := 0

  datatype Status = Ready | Running | Zombie

  datatype Tcb = Tcb(
    pid: nat,
    status: Status,
    parent: Option<nat>,
    children: seq<nat>,
    exitCode: int,
    pass: nat,
    priority: nat)

  datatype Reap = Reap(task: nat, pid: nat, code: int)

  /** `tasks` are the control blocks that have not been dropped.  The last three
      fields record history: pids at birth, exit codes, and results of waitpid. */
  datatype World = World(
    tasks: map<nat, Tcb>,
    next: nat,
    ready: seq<nat>,
    current: Option<nat>,
    pids: Pool,
    births: map<nat, nat>,
    exits: map<nat, int>,
    reaps: seq<Reap>)

  // ----- invariants

  ghost predicate NoDup(s: seq<nat>) {
    forall i, j :: 0 <= i < j < |s| ==> s[i] != s[j]
  }

  /** Parent links and children lists form one tree under INITPROC: a parent is older
      than its children, and a zombie has handed its children over. */
  ghost predicate ChildrenOk(w: World, r: nat)
    requires r in w.tasks
  {
    var t := w.tasks[r];
    && NoDup(t.children)
    && (forall i :: 0 <= i < |t.children| ==> t.children[i] in w.tasks && w.tasks[t.children[i]].parent == Some(r))
    && (t.status == Zombie ==> t.children == [])
  }

  ghost predicate ParentOk(w: World, r: nat)
    requires r in w.tasks
  {
    var t := w.tasks[r];
    if r == INITPROC then t.parent == None && t.status != Zombie
    else t.parent.Some? && t.parent.value < r && t.parent.value in w.tasks && r in w.tasks[t.parent.value].children
  }

  ghost predicate Tree(w: World) {
    && INITPROC in w.tasks
    && (forall r :: r in w.tasks ==> r < w.next && ChildrenOk(w, r) && ParentOk(w, r))
  }

  /** Each task is in exactly one place. */
  ghost predicate Placed(w: World) {
    && NoDup(w.ready)
    && (forall r :: r in w.ready <==> r in w.tasks && w.tasks[r].status == Ready)
    && (forall r :: w.current == Some(r) <==> r in w.tasks && w.tasks[r].status == Running)
  }

  ghost function LivePids(w: World): set<nat> {
    set r | r in w.tasks :: w.tasks[r].pid
  }

  ghost predicate PidsOk(w: World) {
    && (forall r, q :: r in w.tasks && q in w.tasks && r != q ==> w.tasks[r].pid != w.tasks[q].pid)
    && Conserved(0, w.pids, LivePids(w))
  }

  ghost predicate History(w: World) {
    Recorded(w) && Reaped(w)
  }

  /** Births and exits agree with the tasks that still exist. */
  ghost predicate Recorded(w: World) {
    && (forall r: nat :: r in w.births <==> r < w.next)
    && (forall r :: r in w.tasks ==> r in w.births && w.births[r] == w.tasks[r].pid)
    && (forall r :: r in w.exits ==> r in w.births)
    && (forall r :: r in w.tasks ==> (r in w.exits <==> w.tasks[r].status == Zombie))
    && (forall r :: r in w.tasks && r in w.exits ==> w.exits[r] == w.tasks[r].exitCode)
  }

  /** Every task that is gone was reaped once, with its pid and exit code. */
  ghost predicate Reaped(w: World) {
    && (forall i :: 0 <= i < |w.reaps| ==> ReapOk(w, w.reaps[i]))
    && (forall i, j :: 0 <= i < j < |w.reaps| ==> w.reaps[i].task != w.reaps[j].task)
    && (forall r: nat :: r < w.next && r !in w.tasks ==> exists i :: 0 <= i < |w.reaps| && w.reaps[i].task == r)
  }

  ghost predicate ReapOk(w: World, x: Reap) {
    && x.task in w.births && x.task !in w.tasks && x.task in w.exits
    && x.pid == w.births[x.task] && x.code == w.exits[x.task]
  }

  ghost predicate Priorities(w: World) {
    forall r :: r in w.tasks ==> w.tasks[r].priority >= 2 && w.tasks[r].pass < WORD
  }

  ghost predicate Inv(w: World) {
    Tree(w) && Placed(w) && PidsOk(w) && History(w) && Priorities(w)
  }

  // ----- the steps

  function PassOf(w: World, r: nat): nat {
    if r in w.tasks then w.tasks[r].pass else 0
  }

  function PassesOf(w: World): (ps: seq<nat>)
    ensures |ps| == |w.ready| && forall i :: 0 <= i < |ps| ==> ps[i] == PassOf(w, w.ready[i])
  {
    seq(|w.ready|, i requires 0 <= i < |w.ready| => PassOf(w, w.ready[i]))
  }

  /** A control block after `fetch` has charged it and `run_tasks` has started it. */
  function Charged(t: Tcb): Tcb {
    if t.priority >= 1 then t.(pass := (t.pass + Stride(t.priority)) % WORD, status := Running) else t
  }

  /** The body of the loop in `run_tasks`. */
  function Fetch(w: World): World {
    if w.ready == [] then w
    else
      var k := Pick(PassesOf(w));
      var r := w.ready[k];
      if r !in w.tasks then w
      else w.(ready := w.ready[..k] + w.ready[k + 1..],
              tasks := w.tasks[r := Charged(w.tasks[r])],
              current := Some(r))
  }

  /** `suspend_current_and_run_next` up to the switch. */
  function Yield(w: World): World {
    if w.current.None? || w.current.value !in w.tasks then w
    else
      var c := w.current.value;
      w.(tasks := w.tasks[c := w.tasks[c].(status := Ready)], ready := w.ready + [c], current := None)
  }

  /** `fork` and `spawn` differ in the pass of the child. */
  function Born(w: World, inherit: bool): World {
    if w.current.None? || w.current.value !in w.tasks then w
    else
      var c := w.current.value;
      var p := w.tasks[c];
      var (pid, pids) := Issue(w.pids);
      var child := Tcb(pid, Ready, Some(c), [], 0, if inherit then p.pass else 0, p.priority);
      w.(tasks := w.tasks[c := p.(children := p.children + [w.next])][w.next := child],
         next := w.next + 1, ready := w.ready + [w.next], pids := pids,
         births := w.births[w.next := pid])
  }

  /** What `exit` does to the control block `t` of task `r`. */
  function AfterExit(r: nat, t: Tcb, c: nat, kids: seq<nat>, code: int): Tcb {
    if r == c then t.(status := Zombie, exitCode := code, children := [])
    else if r == INITPROC then t.(children := t.children + kids)
    else if r in kids then t.(parent := Some(INITPROC))
    else t
  }

  /** `exit_current_and_run_next` up to the switch. */
  function Exit(w: World, code: int): World {
    if w.current.None? || w.current.value !in w.tasks then w
    else
      var c := w.current.value;
      var kids := w.tasks[c].children;
      w.(tasks := map r | r in w.tasks :: AfterExit(r, w.tasks[r], c, kids, code),
         current := None, exits := w.exits[c := code])
  }

  predicate Matches(w: World, r: nat, pid: int) {
    r in w.tasks && (pid == -1 || pid == w.tasks[r].pid)
  }

  predicate Reapable(w: World, r: nat, pid: int) {
    Matches(w, r, pid) && w.tasks[r].status == Zombie
  }

  /** The first child that waitpid can reap, or the number of children. */
  function FirstReapable(w: World, kids: seq<nat>, pid: int): (k: nat)
    ensures k <= |kids|
    ensures forall j :: 0 <= j < k ==> !Reapable(w, kids[j], pid)
    ensures k < |kids| ==> Reapable(w, kids[k], pid)
  {
    if kids == [] then 0
    else if Reapable(w, kids[0], pid) then 0
    else
      assert forall j :: 1 <= j < |kids| ==> kids[j] == kids[1..][j - 1];
      1 + FirstReapable(w, kids[1..], pid)
  }

  /** `sys_waitpid`: the result and the new state. */
  function Wait(w: World, pid: int): (int, World) {
    if w.current.None? || w.current.value !in w.tasks then (-1, w)
    else
      var c := w.current.value;
      var kids := w.tasks[c].children;
      if forall i :: 0 <= i < |kids| ==> !Matches(w, kids[i], pid) then (-1, w)
      else
        var k := FirstReapable(w, kids, pid);
        if k == |kids| then (-2, w) else (w.tasks[kids[k]].pid as int, ReapChild(w, c, k))
  }

  /** Child `k` of task `c` leaves its list, and with its last reference its control
      block and its pid go. */
  function ReapChild(w: World, c: nat, k: nat): World
    requires c in w.tasks && k < |w.tasks[c].children| && w.tasks[c].children[k] in w.tasks
  {
    var kids := w.tasks[c].children;
    var t := w.tasks[kids[k]];
    w.(tasks := w.tasks[c := w.tasks[c].(children := kids[..k] + kids[k + 1..])] - {kids[k]},
       pids := Recycle(w.pids, t.pid),
       reaps := w.reaps + [Reap(kids[k], t.pid, t.exitCode)])
  }

  /** `sys_set_priority` */
  function SetPriority(w: World, prio: int): (int, World) {
    if w.current.None? || w.current.value !in w.tasks then (-1, w)
    else if prio < 2 then (-1, w)
    else (prio, w.(tasks := w.tasks[w.current.value := w.tasks[w.current.value].(priority := prio)]))
  }

  datatype Op = DoFetch | DoYield | DoFork | DoSpawn | DoExit(code: int) | DoWait(pid: int) | DoSetPriority(prio: int)

  function Do(w: World, op: Op): World {
    match op
    case DoFetch => Fetch(w)
    case DoYield => Yield(w)
    case DoFork => Born(w, true)
    case DoSpawn => Born(w, false)
    case DoExit(code) => Exit(w, code)
    case DoWait(pid) => Wait(w, pid).1
    case DoSetPriority(prio) => SetPriority(w, prio).1
  }

  /** The processor is idle before a fetch and runs a task otherwise; the exiting task
      is not INITPROC, whose control block the source would borrow twice. */
  predicate Enabled(w: World, op: Op) {
    if op.DoFetch? then w.current.None?
    else w.current.Some? && (op.DoExit? ==> w.current != Some(INITPROC))
  }

  predicate EnabledRun(w: World, ops: seq<Op>)
    decreases |ops|
  {
    ops == [] || (Enabled(w, ops[0]) && EnabledRun(Do(w, ops[0]), ops[1..]))
  }

  function Exec(w: World, ops: seq<Op>): World
    decreases |ops|
  {
    if ops == [] then w else Exec(Do(w, ops[0]), ops[1..])
  }

  /** The state after `add_initproc`. */
  function Boot(): World {
    World(map[INITPROC := Tcb(0, Ready, None, [], 0, 0, 16)], 1, [INITPROC], None, Pool(1, []), map[INITPROC := 0], map[], [])
  }

  lemma BootInv()
    ensures Inv(Boot())
  {
    BootTree();
    BootHistory();
  }

  lemma BootTree()
    ensures Tree(Boot()) && Placed(Boot()) && Priorities(Boot())
  {
    var w := Boot();
    assert w.tasks.Keys == {INITPROC};
  }

  lemma BootHistory()
    ensures PidsOk(Boot()) && History(Boot())
  {
    var w := Boot();
    assert w.tasks.Keys == {INITPROC} && w.births.Keys == {INITPROC} && w.exits.Keys == {};
    SoleTask(w);
  }

  lemma SoleTask(w: World)
    requires w.tasks.Keys == {INITPROC} && w.births.Keys == {INITPROC} && w.exits.Keys == {}
    requires w.tasks[INITPROC].pid == 0 == w.births[INITPROC] && w.tasks[INITPROC].status != Zombie
    requires w.next == 1 && w.reaps == [] && w.pids == Pool(1, [])
    ensures PidsOk(w) && History(w)
  {
    assert PidsOk(w) by {
      hide History;
      assert LivePids(w) == {0} by {
        assert INITPROC in w.tasks;
      }
      FirstPid();
    }
    assert History(w) by {
      hide PidsOk;
      assert INITPROC in w.tasks;
      assert forall r :: r in w.tasks <==> r == INITPROC;
      assert forall r :: r in w.births <==> r == INITPROC;
    }
  }

  lemma FirstPid()
    ensures Conserved(0, Pool(1, []), {0})
  {
  }

  // ----- steps that change no link, pid or exit code

  ghost predicate SameShape(w: World, v: World) {
    && v.tasks.Keys == w.tasks.Keys && v.next == w.next && v.pids == w.pids
    && v.births == w.births && v.exits == w.exits && v.reaps == w.reaps
    && forall r :: r in w.tasks ==>
         && v.tasks[r].pid == w.tasks[r].pid && v.tasks[r].parent == w.tasks[r].parent
         && v.tasks[r].children == w.tasks[r].children && v.tasks[r].exitCode == w.tasks[r].exitCode
         && (v.tasks[r].status == Zombie <==> w.tasks[r].status == Zombie)
  }

  lemma ShapeKeepsTree(w: World, v: World)
    requires SameShape(w, v) && Tree(w)
    ensures Tree(v)
  {
    forall r | r in v.tasks ensures ChildrenOk(v, r) && ParentOk(v, r) {
      assert r in w.tasks && ChildrenOk(w, r) && ParentOk(w, r);
    }
  }

  lemma ShapeKeepsPids(w: World, v: World)
    requires SameShape(w, v) && PidsOk(w)
    ensures PidsOk(v)
  {
    assert LivePids(v) == LivePids(w) by {
      forall p | p in LivePids(w) ensures p in LivePids(v) {
        var r :| r in w.tasks && w.tasks[r].pid == p;
        assert r in v.tasks && v.tasks[r].pid == p;
      }
      forall p | p in LivePids(v) ensures p in LivePids(w) {
        var r :| r in v.tasks && v.tasks[r].pid == p;
        assert r in w.tasks && w.tasks[r].pid == p;
      }
    }
  }

  lemma ShapeKeepsHistory(w: World, v: World)
    requires SameShape(w, v) && History(w)
    ensures History(v)
  {
    forall i | 0 <= i < |v.reaps| ensures ReapOk(v, v.reaps[i]) {
      assert ReapOk(w, w.reaps[i]);
    }
  }

  lemma ShapeKeeps(w: World, v: World)
    requires SameShape(w, v) && Tree(w) && PidsOk(w) && History(w)
    ensures Tree(v) && PidsOk(v) && History(v)
  {
    ShapeKeepsTree(w, v);
    ShapeKeepsPids(w, v);
    ShapeKeepsHistory(w, v);
  }

  lemma RemoveOne(s: seq<nat>, k: nat)
    requires k < |s| && NoDup(s)
    ensures NoDup(s[..k] + s[k + 1..])
    ensures forall x :: x in s[..k] + s[k + 1..] <==> x in s && x != s[k]
  {
    var t := s[..k] + s[k + 1..];
    forall i | 0 <= i < |t| ensures t[i] == s[if i < k then i else i + 1] {
    }
    forall x | x in s && x != s[k] ensures x in t {
      var i :| 0 <= i < |s| && s[i] == x;
      assert t[if i < k then i else i - 1] == x;
    }
  }

  lemma AddOne(s: seq<nat>, x: nat)
    requires NoDup(s) && x !in s
    ensures NoDup(s + [x]) && forall y :: y in s + [x] <==> y in s || y == x
  {
  }

  /** The task that `fetch` takes from a nonempty ready queue. */
  function Next(w: World): nat
    requires w.ready != []
  {
    w.ready[Pick(PassesOf(w))]
  }

  lemma FetchOne(w: World)
    requires Placed(w) && w.ready != []
    ensures Next(w) in w.ready && Next(w) in w.tasks && w.tasks[Next(w)].status == Ready
    ensures Fetch(w).tasks == w.tasks[Next(w) := Charged(w.tasks[Next(w)])] && Fetch(w).current == Some(Next(w))
    ensures NoDup(Fetch(w).ready) && forall x :: x in Fetch(w).ready <==> x in w.ready && x != Next(w)
  {
    hide NoDup, Charged, Pick;
    var k := Pick(PassesOf(w));
    assert w.ready[k] in w.ready;
    RemoveOne(w.ready, k);
  }

  /** One control block changes its scheduling fields only. */
  lemma ShapeUpdate(w: World, v: World, r: nat, t: Tcb)
    requires r in w.tasks && v.tasks == w.tasks[r := t]
    requires t.pid == w.tasks[r].pid && t.parent == w.tasks[r].parent && t.children == w.tasks[r].children
    requires t.exitCode == w.tasks[r].exitCode && (t.status == Zombie <==> w.tasks[r].status == Zombie)
    requires v.next == w.next && v.pids == w.pids && v.births == w.births && v.exits == w.exits && v.reaps == w.reaps
    ensures SameShape(w, v)
  {
  }

  lemma FetchKeeps(w: World)
    requires Inv(w) && w.current.None?
    ensures Inv(Fetch(w))
  {
    hide Tree, PidsOk, History, NoDup, SameShape, Fetch, Next, Stride, Placed;
    if w.ready != [] {
      FetchOne(w);
      FetchFrame(w);
      FetchPlaced(w);
      ShapeUpdate(w, Fetch(w), Next(w), Charged(w.tasks[Next(w)]));
      ShapeKeeps(w, Fetch(w));
    } else {
      NothingToFetch(w);
    }
  }

  lemma FetchPlaced(w: World)
    requires Placed(w) && Priorities(w) && w.current.None? && w.ready != []
    ensures Placed(Fetch(w))
  {
    hide NoDup, Fetch, Next, Stride;
    FetchOne(w);
  }

  lemma NothingToFetch(w: World)
    requires w.ready == []
    ensures Fetch(w) == w
  {
  }

  lemma FetchFrame(w: World)
    ensures Fetch(w).next == w.next && Fetch(w).pids == w.pids
    ensures Fetch(w).births == w.births && Fetch(w).exits == w.exits && Fetch(w).reaps == w.reaps
  {
  }

  lemma YieldKeeps(w: World)
    requires Inv(w) && w.current.Some?
    ensures Inv(Yield(w))
  {
    hide Tree, PidsOk, History, NoDup, SameShape;
    var c := w.current.value;
    AddOne(w.ready, c);
    ShapeUpdate(w, Yield(w), c, w.tasks[c].(status := Ready));
    ShapeKeeps(w, Yield(w));
  }

  lemma SetPriorityKeeps(w: World, prio: int)
    requires Inv(w) && w.current.Some?
    ensures Inv(SetPriority(w, prio).1)
  {
    hide Tree, PidsOk, History, NoDup, SameShape;
    if prio >= 2 {
      var c := w.current.value;
      ShapeUpdate(w, SetPriority(w, prio).1, c, w.tasks[c].(priority := prio));
      ShapeKeeps(w, SetPriority(w, prio).1);
    }
  }

  /** set_priority answers with the priority, which the caller then has, and refuses those
      below 2; nothing else changes. */
  lemma SetPriorityAnswers(w: World, prio: int)
    requires Inv(w) && w.current.Some? && w.current.value in w.tasks
    ensures var (r, v) := SetPriority(w, prio);
            && r == (if prio >= 2 then prio else -1) && (prio < 2 ==> v == w)
            && w.current.value in v.tasks && (prio >= 2 ==> v.tasks[w.current.value].priority == prio)
            && v.tasks.Keys == w.tasks.Keys
            && (forall q :: q in w.tasks && q != w.current.value ==> v.tasks[q] == w.tasks[q])
            && (forall q :: q in w.tasks ==> v.tasks[q].pass == w.tasks[q].pass && v.tasks[q].status == w.tasks[q].status)
            && v.ready == w.ready && v.current == w.current
  {
    hide Inv;
  }

  // ----- fork and spawn

  /** What a birth does to the maps. */
  lemma BornShape(w: World, inherit: bool)
    requires Inv(w) && w.current.Some?
    ensures w.current.value in w.tasks && w.next !in w.tasks
    ensures var c, v := w.current.value, Born(w, inherit);
            && v.tasks.Keys == w.tasks.Keys + {w.next} && v.next == w.next + 1
            && v.tasks[w.next] == Tcb(Issue(w.pids).0, Ready, Some(c), [], 0, if inherit then w.tasks[c].pass else 0, w.tasks[c].priority)
            && v.tasks[c] == w.tasks[c].(children := w.tasks[c].children + [w.next])
            && (forall r :: r in w.tasks && r != c ==> v.tasks[r] == w.tasks[r])
            && v.ready == w.ready + [w.next] && v.current == w.current && v.pids == Issue(w.pids).1
            && v.births == w.births[w.next := Issue(w.pids).0] && v.exits == w.exits && v.reaps == w.reaps
  {
    hide PidsOk, History, Priorities, ChildrenOk, ParentOk, NoDup, Issue;
  }

  /** The child's pid was held by no live task. */
  lemma BornPid(w: World, inherit: bool)
    requires Inv(w) && w.current.Some?
    ensures Issue(w.pids).0 !in LivePids(w) && Issue(w.pids).0 in LivePids(Born(w, inherit))
  {
    hide Tree, Placed, History, Priorities, Born, Issue, Conserved;
    IssueConserves(0, w.pids, LivePids(w));
    BornShape(w, inherit);
    assert Born(w, inherit).tasks[w.next].pid == Issue(w.pids).0;
  }

  lemma BornTree(w: World, inherit: bool)
    requires Inv(w) && w.current.Some?
    ensures Tree(Born(w, inherit))
  {
    hide PidsOk, History, Priorities, Born, Issue, ChildrenOk, ParentOk;
    BornShape(w, inherit);
    var v := Born(w, inherit);
    forall r | r in v.tasks ensures ChildrenOk(v, r) && ParentOk(v, r) {
      BornChildren(w, inherit, r);
      BornParent(w, inherit, r);
    }
  }

  lemma BornChildren(w: World, inherit: bool, r: nat)
    requires Inv(w) && w.current.Some? && r in Born(w, inherit).tasks
    ensures ChildrenOk(Born(w, inherit), r)
  {
    hide PidsOk, History, Priorities, Born, Issue, NoDup, ParentOk;
    BornShape(w, inherit);
    var c := w.current.value;
    if r == w.next {
      EmptyNoDup();
    } else {
      assert ChildrenOk(w, r);
      if r == c {
        AddOne(w.tasks[c].children, w.next);
      }
    }
  }

  lemma BornParent(w: World, inherit: bool, r: nat)
    requires Inv(w) && w.current.Some? && r in Born(w, inherit).tasks
    ensures ParentOk(Born(w, inherit), r)
  {
    hide PidsOk, History, Priorities, Born, Issue, ChildrenOk;
    BornShape(w, inherit);
    var c, v := w.current.value, Born(w, inherit);
    if r == w.next {
      assert v.tasks[c].children[|w.tasks[c].children|] == r;
    } else {
      assert ParentOk(w, r);
    }
  }

  lemma EmptyNoDup()
    ensures NoDup([])
  {
  }

  lemma BornPids(w: World, inherit: bool)
    requires Inv(w) && w.current.Some?
    ensures PidsOk(Born(w, inherit))
  {
    hide Tree, Placed, History, Priorities, Born, Conserved, Issue;
    BornShape(w, inherit);
    var c, v := w.current.value, Born(w, inherit);
    var pid := Issue(w.pids).0;
    IssueConserves(0, w.pids, LivePids(w));
    forall r | r in w.tasks ensures v.tasks[r].pid == w.tasks[r].pid && w.tasks[r].pid != pid {
      assert w.tasks[r].pid in LivePids(w);
    }
    assert LivePids(v) == LivePids(w) + {pid} by {
      forall p | p in LivePids(w) + {pid} ensures p in LivePids(v) {
        if p == pid {
          assert v.tasks[w.next].pid == p;
        } else {
          var r :| r in w.tasks && w.tasks[r].pid == p;
          assert v.tasks[r].pid == p;
        }
      }
    }
  }

  lemma BornRest(w: World, inherit: bool)
    requires Inv(w) && w.current.Some?
    ensures Placed(Born(w, inherit)) && Priorities(Born(w, inherit))
  {
    hide Tree, PidsOk, History, Born, Issue, NoDup;
    BornShape(w, inherit);
    AddOne(w.ready, w.next);
  }

  lemma BornHistory(w: World, inherit: bool)
    requires Inv(w) && w.current.Some?
    ensures History(Born(w, inherit))
  {
    hide Tree, PidsOk, Placed, Priorities, Born, Issue, Reaped;
    BornShape(w, inherit);
    BornReaped(w, inherit);
  }

  lemma BornReaped(w: World, inherit: bool)
    requires Inv(w) && w.current.Some?
    ensures Reaped(Born(w, inherit))
  {
    hide Tree, PidsOk, Placed, Priorities, Born, Issue;
    BornShape(w, inherit);
    var v := Born(w, inherit);
    forall i | 0 <= i < |v.reaps| ensures ReapOk(v, v.reaps[i]) {
      assert ReapOk(w, w.reaps[i]);
    }
  }

  lemma BornKeeps(w: World, inherit: bool)
    requires Inv(w) && w.current.Some?
    ensures Inv(Born(w, inherit))
  {
    hide Tree, PidsOk, Placed, Priorities, History, Born;
    BornTree(w, inherit);
    BornPids(w, inherit);
    BornRest(w, inherit);
    BornHistory(w, inherit);
  }

  // ----- exit

  lemma ExitShape(w: World, code: int)
    requires Inv(w) && w.current.Some?
    ensures w.current.value in w.tasks
    ensures var c, v := w.current.value, Exit(w, code);
            && v.tasks.Keys == w.tasks.Keys && v.next == w.next && v.pids == w.pids
            && (forall r :: r in w.tasks ==> v.tasks[r] == AfterExit(r, w.tasks[r], c, w.tasks[c].children, code))
            && v.ready == w.ready && v.current == None
            && v.births == w.births && v.exits == w.exits[c := code] && v.reaps == w.reaps
  {
    hide PidsOk, History, Priorities, Tree, AfterExit;
  }

  /** A task's children are neither itself nor INITPROC nor another task's. */
  lemma KidsApart(w: World, c: nat)
    requires Tree(w) && c in w.tasks
    ensures forall x :: x in w.tasks[c].children ==> x in w.tasks && x != c && x != INITPROC && w.tasks[x].parent == Some(c)
  {
    hide NoDup;
    assert ChildrenOk(w, c) && ParentOk(w, c) && ParentOk(w, INITPROC);
  }

  lemma ExitChildren(w: World, code: int, r: nat)
    requires Inv(w) && w.current.Some? && w.current != Some(INITPROC) && r in w.tasks && r in Exit(w, code).tasks
    ensures ChildrenOk(Exit(w, code), r)
  {
    hide PidsOk, History, Priorities, Placed, Exit, NoDup, ParentOk;
    ExitShape(w, code);
    var c, v := w.current.value, Exit(w, code);
    KidsApart(w, c);
    KidsApart(w, r);
    assert ChildrenOk(w, r);
    if r == c {
      EmptyNoDup();
    } else if r == INITPROC {
      InitAdopts(w, code);
    } else {
      forall i | 0 <= i < |v.tasks[r].children|
        ensures v.tasks[r].children[i] in v.tasks && v.tasks[v.tasks[r].children[i]].parent == Some(r)
      {
        assert w.tasks[r].children[i] in w.tasks[r].children;
      }
    }
  }

  /** INITPROC takes the children of the exiting task over. */
  lemma InitAdopts(w: World, code: int)
    requires Inv(w) && w.current.Some? && w.current != Some(INITPROC) && INITPROC in Exit(w, code).tasks
    ensures ChildrenOk(Exit(w, code), INITPROC)
  {
    hide PidsOk, History, Priorities, Placed, Exit, NoDup;
    ExitShape(w, code);
    var c, v := w.current.value, Exit(w, code);
    var kids, own := w.tasks[c].children, w.tasks[INITPROC].children;
    KidsApart(w, c);
    KidsApart(w, INITPROC);
    assert ChildrenOk(w, INITPROC) && ChildrenOk(w, c) && ParentOk(w, INITPROC);
    Join(own, kids);
    var all := v.tasks[INITPROC].children;
    assert all == own + kids;
    forall i | 0 <= i < |all| ensures all[i] in v.tasks && v.tasks[all[i]].parent == Some(INITPROC) {
      assert all[i] in own || all[i] in kids;
      Adopted(w, code, all[i]);
    }
  }

  /** INITPROC's own children and the adopted ones are its children after the exit. */
  lemma Adopted(w: World, code: int, x: nat)
    requires Inv(w) && w.current.Some? && w.current != Some(INITPROC) && w.current.value in w.tasks
    requires x in w.tasks[INITPROC].children || x in w.tasks[w.current.value].children
    ensures x in Exit(w, code).tasks && Exit(w, code).tasks[x].parent == Some(INITPROC)
  {
    hide PidsOk, History, Priorities, Placed, Exit, ChildrenOk, ParentOk;
    ExitShape(w, code);
    KidsApart(w, w.current.value);
    KidsApart(w, INITPROC);
  }

  /** They follow INITPROC's own, in their order. */
  lemma AdoptedInOrder(w: World, code: int)
    requires Inv(w) && w.current.Some? && w.current != Some(INITPROC) && w.current.value in w.tasks
    ensures INITPROC in Exit(w, code).tasks
    ensures Exit(w, code).tasks[INITPROC].children == w.tasks[INITPROC].children + w.tasks[w.current.value].children
    ensures Exit(w, code).tasks[w.current.value].children == []
  {
    hide PidsOk, History, Priorities, Placed, Exit, ChildrenOk, ParentOk;
    ExitShape(w, code);
  }

  lemma Join(a: seq<nat>, b: seq<nat>)
    requires NoDup(a) && NoDup(b) && forall i, j :: 0 <= i < |a| && 0 <= j < |b| ==> a[i] != b[j]
    ensures NoDup(a + b)
  {
  }

  lemma ExitParent(w: World, code: int, r: nat)
    requires Inv(w) && w.current.Some? && w.current != Some(INITPROC) && r in w.tasks && r in Exit(w, code).tasks
    ensures ParentOk(Exit(w, code), r)
  {
    hide PidsOk, History, Priorities, Exit, ChildrenOk, Placed;
    ExitShape(w, code);
    KidsApart(w, w.current.value);
    assert ParentOk(w, r) && ParentOk(w, INITPROC);
    ExitLists(w, code);
  }

  /** Children lists after an exit: INITPROC's grows, no other loses a member but the
      task that left. */
  lemma ExitLists(w: World, code: int)
    requires Inv(w) && w.current.Some? && w.current != Some(INITPROC)
    ensures var c, v := w.current.value, Exit(w, code);
            && c in w.tasks && INITPROC in v.tasks && v.tasks.Keys == w.tasks.Keys
            && (forall x :: x in w.tasks[c].children || x in w.tasks[INITPROC].children ==> x in v.tasks[INITPROC].children)
            && (forall q :: q in w.tasks && q != c && q != INITPROC ==> v.tasks[q].children == w.tasks[q].children)
  {
    hide PidsOk, History, Priorities, Exit, ChildrenOk, Placed, ParentOk;
    ExitShape(w, code);
  }

  lemma ExitTree(w: World, code: int)
    requires Inv(w) && w.current.Some? && w.current != Some(INITPROC)
    ensures Tree(Exit(w, code))
  {
    hide PidsOk, History, Priorities, Placed, Exit, ChildrenOk, ParentOk;
    ExitShape(w, code);
    var v := Exit(w, code);
    forall r | r in v.tasks ensures ChildrenOk(v, r) && ParentOk(v, r) {
      ExitChildren(w, code, r);
      ExitParent(w, code, r);
    }
  }

  lemma ExitRest(w: World, code: int)
    requires Inv(w) && w.current.Some?
    ensures Placed(Exit(w, code)) && Priorities(Exit(w, code))
  {
    hide PidsOk, History, Tree, Exit, NoDup;
    ExitShape(w, code);
  }

  lemma ExitPids(w: World, code: int)
    requires Inv(w) && w.current.Some?
    ensures PidsOk(Exit(w, code))
  {
    hide History, Tree, Exit, Placed, Priorities, Conserved;
    ExitShape(w, code);
    SamePids(w, Exit(w, code));
  }

  lemma SamePids(w: World, v: World)
    requires v.tasks.Keys == w.tasks.Keys && forall r :: r in w.tasks ==> v.tasks[r].pid == w.tasks[r].pid
    ensures LivePids(v) == LivePids(w)
  {
    forall p | p in LivePids(w) ensures p in LivePids(v) {
      var r :| r in w.tasks && w.tasks[r].pid == p;
      assert r in v.tasks && v.tasks[r].pid == p;
    }
    forall p | p in LivePids(v) ensures p in LivePids(w) {
      var r :| r in v.tasks && v.tasks[r].pid == p;
      assert r in w.tasks && w.tasks[r].pid == p;
    }
  }

  lemma CurrentRuns(w: World)
    requires Placed(w) && w.current.Some?
    ensures w.current.value in w.tasks && w.tasks[w.current.value].status == Running
  {
  }

  lemma ExitFields(w: World, code: int, r: nat)
    requires Inv(w) && w.current.Some? && r in w.tasks && r in Exit(w, code).tasks
    ensures Exit(w, code).tasks[r].pid == w.tasks[r].pid
    ensures r != w.current.value ==> Exit(w, code).tasks[r].status == w.tasks[r].status && Exit(w, code).tasks[r].exitCode == w.tasks[r].exitCode
    ensures r == w.current.value ==> Exit(w, code).tasks[r].status == Zombie && Exit(w, code).tasks[r].exitCode == code
  {
    hide PidsOk, Tree, Exit, Priorities, Placed, History;
    ExitShape(w, code);
  }

  lemma ExitHistory(w: World, code: int)
    requires Inv(w) && w.current.Some?
    ensures History(Exit(w, code))
  {
    hide PidsOk, Tree, Exit, Priorities, Placed, AfterExit;
    ExitShape(w, code);
    CurrentRuns(w);
    var v := Exit(w, code);
    forall r | r in w.tasks
      ensures v.tasks[r].pid == w.tasks[r].pid && (r in v.exits <==> v.tasks[r].status == Zombie)
      ensures r in v.exits ==> v.exits[r] == v.tasks[r].exitCode
    {
      ExitFields(w, code, r);
    }
    forall i | 0 <= i < |v.reaps| ensures ReapOk(v, v.reaps[i]) {
      assert ReapOk(w, w.reaps[i]);
    }
  }

  lemma ExitKeeps(w: World, code: int)
    requires Inv(w) && w.current.Some? && w.current != Some(INITPROC)
    ensures Inv(Exit(w, code))
  {
    hide Tree, PidsOk, Placed, Priorities, History, Exit;
    ExitTree(w, code);
    ExitPids(w, code);
    ExitRest(w, code);
    ExitHistory(w, code);
  }

  // ----- waitpid

  /** Child `k` of the current task `c` is a zombie that waitpid reaps. */
  ghost predicate Reaping(w: World, pid: int, c: nat, k: nat) {
    && w.current == Some(c) && c in w.tasks && k < |w.tasks[c].children|
    && Reapable(w, w.tasks[c].children[k], pid)
  }

  /** Either nothing changes, or one zombie child of the current task goes away. */
  lemma WaitCases(w: World, pid: int) returns (c: nat, k: nat)
    requires Placed(w) && w.current.Some?
    ensures if Wait(w, pid).0 < 0 then Wait(w, pid).1 == w
            else Reaping(w, pid, c, k) && Wait(w, pid) == (w.tasks[w.tasks[c].children[k]].pid as int, ReapChild(w, c, k))
  {
    hide ReapChild;
    c := w.current.value;
    k := FirstReapable(w, w.tasks[c].children, pid);
  }

  lemma ReapShape(w: World, c: nat, k: nat)
    requires Tree(w) && c in w.tasks && k < |w.tasks[c].children| && w.tasks[c].children[k] in w.tasks
    ensures var r, v := w.tasks[c].children[k], ReapChild(w, c, k);
            && r != c && r != INITPROC && v.tasks.Keys == w.tasks.Keys - {r} && v.next == w.next
            && NoDup(v.tasks[c].children) && (forall x :: x in v.tasks[c].children <==> x in w.tasks[c].children && x != r)
            && v.tasks[c] == w.tasks[c].(children := v.tasks[c].children)
            && (forall q :: q in v.tasks && q != c ==> v.tasks[q] == w.tasks[q])
            && v.ready == w.ready && v.current == w.current && v.pids == Recycle(w.pids, w.tasks[r].pid)
            && v.births == w.births && v.exits == w.exits
            && v.reaps == w.reaps + [Reap(r, w.tasks[r].pid, w.tasks[r].exitCode)]
  {
    hide Recycle, NoDup;
    var r := w.tasks[c].children[k];
    assert ChildrenOk(w, c) && ParentOk(w, r);
    RemoveOne(w.tasks[c].children, k);
  }

  lemma ReapList(w: World, c: nat, k: nat)
    requires Tree(w) && c in w.tasks && k < |w.tasks[c].children| && w.tasks[c].children[k] in w.tasks
    ensures var kids, v := w.tasks[c].children, ReapChild(w, c, k);
            c in v.tasks && v.tasks[c].children == kids[..k] + kids[k + 1..]
  {
    hide NoDup, Recycle;
    assert ChildrenOk(w, c) && ParentOk(w, w.tasks[c].children[k]);
  }

  /** waitpid returns -1 exactly when no child matches, -2 exactly when some does and
      none of those is a zombie, and else the pid of the first one that is, which is then
      the only task to disappear; the other children stay in order. */
  lemma WaitAnswers(w: World, pid: int)
    requires Inv(w) && w.current.Some? && w.current.value in w.tasks
    ensures var kids, (r, v) := w.tasks[w.current.value].children, Wait(w, pid);
            && (r == -1 <==> forall x :: x in kids ==> !Matches(w, x, pid))
            && (r == -2 <==> (exists x :: x in kids && Matches(w, x, pid)) &&
                             forall x :: x in kids && Matches(w, x, pid) ==> w.tasks[x].status != Zombie)
            && (r < 0 ==> v == w)
            && (r >= 0 ==> exists i :: 0 <= i < |kids| && Matches(w, kids[i], pid) && w.tasks[kids[i]].status == Zombie &&
                             w.tasks[kids[i]].pid == r && v.tasks.Keys == w.tasks.Keys - {kids[i]} &&
                             (forall j :: 0 <= j < i && Matches(w, kids[j], pid) ==> w.tasks[kids[j]].status != Zombie) &&
                             w.current.value in v.tasks && v.tasks[w.current.value].children == kids[..i] + kids[i + 1..])
  {
    hide PidsOk, History, Priorities, Placed, ReapChild, Tree, FirstReapable;
    var c := w.current.value;
    var kids := w.tasks[c].children;
    var k := FirstReapable(w, kids, pid);
    forall i | 0 <= i < |kids|
      ensures kids[i] in kids
      ensures Reapable(w, kids[i], pid) <==> Matches(w, kids[i], pid) && w.tasks[kids[i]].status == Zombie
    {
    }
    forall x | x in kids ensures exists i :: 0 <= i < |kids| && kids[i] == x {
    }
    if k < |kids| {
      ReapShape(w, c, k);
      ReapList(w, c, k);
    }
  }

  /** The argument -1 stands for any child, every other one for the child with that pid. */
  lemma WaitForPid(w: World, pid: int)
    requires Inv(w) && w.current.Some? && w.current.value in w.tasks
    ensures var kids, r := w.tasks[w.current.value].children, Wait(w, pid).0;
            && (forall x :: x in kids ==> x in w.tasks)
            && (pid == -1 ==> (r == -1 <==> kids == []))
            && (pid != -1 ==> (r == -1 <==> forall x :: x in kids ==> w.tasks[x].pid != pid) && (r >= 0 ==> r == pid))
  {
    hide PidsOk, History, Priorities, Placed, Tree, Wait;
    KidsApart(w, w.current.value);
    WaitAnswers(w, pid);
    var kids := w.tasks[w.current.value].children;
    if kids != [] {
      assert kids[0] in kids;
    }
  }

  lemma ReapTree(w: World, c: nat, k: nat)
    requires Tree(w) && c in w.tasks && k < |w.tasks[c].children| && w.tasks[c].children[k] in w.tasks
    requires w.tasks[w.tasks[c].children[k]].status == Zombie
    ensures Tree(ReapChild(w, c, k))
  {
    hide ReapChild, NoDup, ChildrenOk, ParentOk;
    ReapShape(w, c, k);
    var v := ReapChild(w, c, k);
    forall q | q in v.tasks ensures ChildrenOk(v, q) && ParentOk(v, q) {
      ReapChildren(w, c, k, q);
      ReapParent(w, c, k, q);
    }
  }

  lemma ReapChildren(w: World, c: nat, k: nat, q: nat)
    requires Tree(w) && c in w.tasks && k < |w.tasks[c].children| && w.tasks[c].children[k] in w.tasks
    requires q in ReapChild(w, c, k).tasks
    ensures ChildrenOk(ReapChild(w, c, k), q)
  {
    hide ReapChild, NoDup, ParentOk;
    ReapShape(w, c, k);
    var r, v := w.tasks[c].children[k], ReapChild(w, c, k);
    assert ChildrenOk(w, q) && ChildrenOk(w, c);
    forall i | 0 <= i < |v.tasks[q].children|
      ensures v.tasks[q].children[i] in v.tasks && v.tasks[v.tasks[q].children[i]].parent == Some(q)
    {
      assert v.tasks[q].children[i] in v.tasks[q].children;
      assert v.tasks[q].children[i] in w.tasks[q].children;
    }
  }

  lemma ReapParent(w: World, c: nat, k: nat, q: nat)
    requires Tree(w) && c in w.tasks && k < |w.tasks[c].children| && w.tasks[c].children[k] in w.tasks
    requires w.tasks[w.tasks[c].children[k]].status == Zombie
    requires q in ReapChild(w, c, k).tasks
    ensures ParentOk(ReapChild(w, c, k), q)
  {
    hide ReapChild, NoDup, ChildrenOk, Tree;
    ReapShape(w, c, k);
    ZombieIsNoParent(w, w.tasks[c].children[k], q);
  }

  lemma ZombieIsNoParent(w: World, z: nat, q: nat)
    requires Tree(w) && z in w.tasks && w.tasks[z].status == Zombie && q in w.tasks
    ensures ParentOk(w, q) && w.tasks[q].parent != Some(z)
  {
    hide NoDup;
    assert ChildrenOk(w, z) && ParentOk(w, q);
  }

  lemma ReapPids(w: World, c: nat, k: nat)
    requires Tree(w) && PidsOk(w) && c in w.tasks && k < |w.tasks[c].children| && w.tasks[c].children[k] in w.tasks
    ensures PidsOk(ReapChild(w, c, k))
  {
    hide ReapChild, Conserved, Tree, NoDup, Recycle;
    ReapShape(w, c, k);
    var r, v := w.tasks[c].children[k], ReapChild(w, c, k);
    var pid := w.tasks[r].pid;
    assert pid in LivePids(w);
    RecycleConserves(0, w.pids, LivePids(w), pid);
    assert LivePids(v) == LivePids(w) - {pid} by {
      forall p | p in LivePids(w) && p != pid ensures p in LivePids(v) {
        var q :| q in w.tasks && w.tasks[q].pid == p;
        assert q in v.tasks && v.tasks[q].pid == p;
      }
      forall p | p in LivePids(v) ensures p in LivePids(w) && p != pid {
        var q :| q in v.tasks && v.tasks[q].pid == p;
        assert q in w.tasks && w.tasks[q].pid == p;
      }
    }
  }

  lemma ReapHistory(w: World, c: nat, k: nat)
    requires Tree(w) && History(w) && c in w.tasks && k < |w.tasks[c].children| && w.tasks[c].children[k] in w.tasks
    requires w.tasks[w.tasks[c].children[k]].status == Zombie
    ensures History(ReapChild(w, c, k))
  {
    hide ReapChild, Recycle, Tree, NoDup, Reaped;
    ReapShape(w, c, k);
    ReapReaped(w, c, k);
  }

  lemma ReapReaped(w: World, c: nat, k: nat)
    requires Tree(w) && History(w) && c in w.tasks && k < |w.tasks[c].children| && w.tasks[c].children[k] in w.tasks
    requires w.tasks[w.tasks[c].children[k]].status == Zombie
    ensures Reaped(ReapChild(w, c, k))
  {
    hide ReapChild, Recycle, Tree, NoDup;
    ReapShape(w, c, k);
    var r, v := w.tasks[c].children[k], ReapChild(w, c, k);
    forall i | 0 <= i < |v.reaps| ensures ReapOk(v, v.reaps[i]) && (i < |w.reaps| ==> v.reaps[i].task != r) {
      if i < |w.reaps| {
        assert v.reaps[i] == w.reaps[i] && ReapOk(w, w.reaps[i]);
      }
    }
    forall q: nat | q < v.next && q !in v.tasks ensures exists i :: 0 <= i < |v.reaps| && v.reaps[i].task == q {
      if q == r {
        assert v.reaps[|w.reaps|].task == r;
      } else {
        var i :| 0 <= i < |w.reaps| && w.reaps[i].task == q;
        assert v.reaps[i].task == q;
      }
    }
  }

  lemma ReapRest(w: World, c: nat, k: nat)
    requires Tree(w) && Placed(w) && Priorities(w) && c in w.tasks
    requires k < |w.tasks[c].children| && w.tasks[c].children[k] in w.tasks
    requires w.tasks[w.tasks[c].children[k]].status == Zombie
    ensures Placed(ReapChild(w, c, k)) && Priorities(ReapChild(w, c, k))
  {
    hide ReapChild, Recycle, Tree, NoDup;
    ReapShape(w, c, k);
  }

  lemma WaitKeeps(w: World, pid: int)
    requires Inv(w) && w.current.Some?
    ensures Inv(Wait(w, pid).1)
  {
    hide Tree, PidsOk, Placed, Priorities, History, Wait, ReapChild;
    var c, k := WaitCases(w, pid);
    if Wait(w, pid).0 >= 0 {
      ReapTree(w, c, k);
      ReapPids(w, c, k);
      ReapHistory(w, c, k);
      ReapRest(w, c, k);
    }
  }

  // ----- whole runs

  lemma StepKeeps(w: World, op: Op)
    requires Inv(w) && Enabled(w, op)
    ensures Inv(Do(w, op))
  {
    hide Inv, Fetch, Yield, Born, Exit, Wait, SetPriority;
    match op {
      case DoFetch => FetchKeeps(w);
      case DoYield => YieldKeeps(w);
      case DoFork => BornKeeps(w, true);
      case DoSpawn => BornKeeps(w, false);
      case DoExit(code) => ExitKeeps(w, code);
      case DoWait(pid) => WaitKeeps(w, pid);
      case DoSetPriority(prio) => SetPriorityKeeps(w, prio);
    }
  }

  /** The invariant holds in every state that a run from boot reaches. */
  lemma {:induction false} RunKeeps(w: World, ops: seq<Op>)
    requires Inv(w) && EnabledRun(w, ops)
    ensures Inv(Exec(w, ops))
    decreases |ops|
  {
    hide Inv, Do;
    if ops != [] {
      StepKeeps(w, ops[0]);
      RunKeeps(Do(w, ops[0]), ops[1..]);
    }
  }

  // ----- what the invariant says

  /** Following parent links. */
  ghost function Root(w: World, r: nat): nat
    requires Tree(w) && r in w.tasks
    decreases r
  {
    assert ParentOk(w, r);
    if r == INITPROC then r else Root(w, w.tasks[r].parent.value)
  }

  lemma {:induction false} EveryTaskUnderInitproc(w: World, r: nat)
    requires Tree(w) && r in w.tasks
    ensures Root(w, r) == INITPROC
    decreases r
  {
    assert ParentOk(w, r);
    if r != INITPROC {
      EveryTaskUnderInitproc(w, w.tasks[r].parent.value);
    }
  }

  /** The places that hold a strong reference to a control block. */
  datatype Site = InReady(index: nat) | IsCurrent | ChildOf(parent: nat, index: nat) | StaticRef

  ghost predicate Holds(w: World, s: Site, r: nat) {
    match s
    case InReady(i) => i < |w.ready| && w.ready[i] == r
    case IsCurrent => w.current == Some(r)
    case ChildOf(p, i) => p in w.tasks && i < |w.tasks[p].children| && w.tasks[p].children[i] == r
    case StaticRef => r == INITPROC
  }

  /** A zombie has exactly one strong reference, so waitpid's assertion holds and
      removing it from its parent's list drops it. */
  lemma ZombieHasOneReference(w: World, r: nat) returns (site: Site)
    requires Inv(w) && r in w.tasks && w.tasks[r].status == Zombie
    ensures site.ChildOf? && Holds(w, site, r) && w.tasks[r].parent == Some(site.parent)
    ensures forall s :: Holds(w, s, r) ==> s == site
  {
    hide PidsOk, History, Priorities;
    assert ParentOk(w, r) && ParentOk(w, INITPROC);
    var p := w.tasks[r].parent.value;
    assert ChildrenOk(w, p);
    var i :| 0 <= i < |w.tasks[p].children| && w.tasks[p].children[i] == r;
    site := ChildOf(p, i);
    forall s | Holds(w, s, r) ensures s == site {
      if s.ChildOf? {
        assert ChildrenOk(w, s.parent);
      }
    }
  }

  /** In any run no task is reaped twice, and each reap returns the pid the task was
      born with and the code it exited with. */
  lemma ReapedOnce(ops: seq<Op>, i: nat, j: nat)
    requires EnabledRun(Boot(), ops)
    requires i < |Exec(Boot(), ops).reaps| && j < |Exec(Boot(), ops).reaps|
    ensures var w := Exec(Boot(), ops);
            && (i != j ==> w.reaps[i].task != w.reaps[j].task)
            && w.reaps[i].task in w.births && w.reaps[i].pid == w.births[w.reaps[i].task]
            && w.reaps[i].task in w.exits && w.reaps[i].code == w.exits[w.reaps[i].task]
  {
    hide Exec, Boot, Tree, Placed, PidsOk, Priorities;
    BootInv();
    RunKeeps(Boot(), ops);
    var w := Exec(Boot(), ops);
    assert ReapOk(w, w.reaps[i]);
  }

  ghost predicate WasReaped(w: World, r: nat) {
    exists i :: 0 <= i < |w.reaps| && w.reaps[i].task == r
  }

  /** In any run a task that has exited either waits as a zombie for its parent or has
      been reaped, never both, and no other task is reaped or forgotten. */
  lemma ExitedIsZombieOrReaped(ops: seq<Op>, r: nat)
    requires EnabledRun(Boot(), ops)
    ensures var w := Exec(Boot(), ops);
            && (r in w.exits <==> (r in w.tasks && w.tasks[r].status == Zombie) || WasReaped(w, r))
            && (r in w.births <==> r in w.tasks || WasReaped(w, r))
            && !(r in w.tasks && WasReaped(w, r))
  {
    hide Exec, Boot, Tree, Placed, PidsOk, Priorities;
    BootInv();
    RunKeeps(Boot(), ops);
    var w := Exec(Boot(), ops);
    forall i | 0 <= i < |w.reaps| ensures w.reaps[i].task in w.births && w.reaps[i].task in w.exits && w.reaps[i].task !in w.tasks {
      assert ReapOk(w, w.reaps[i]);
    }
  }
}
