/** The stride scheduler of `TaskManager`, seen on the ready queue alone: the choice of
    a task, fairness of repeated fetch and yield, and the FIFO scheduler it replaces. */
module StrideScheduler {

  const BIG_STRIDE: nat := 0xFFF_FFFF_FFFF
  const WORD: nat := 0x1_0000_0000_0000_0000

  // ----- division, kept out of the proofs that only use these facts

  function Quot(a: nat, s: nat): nat
    requires s >= 1
  {
    a / s
  }

  lemma MulAtLeast(m: nat, p: nat, q: nat)
    requires m <= p
    ensures m * q <= p * q
  {
    assert p * q == m * q + (p - m) * q;
  }

  lemma QuotBounds(a: nat, s: nat)
    requires s >= 1
    ensures s * Quot(a, s) <= a < s * Quot(a, s) + s
  {
    assert a == s * (a / s) + a % s;
  }

  lemma QuotIs(a: nat, s: nat, q: nat)
    requires s >= 1 && s * q <= a < s * q + s
    ensures Quot(a, s) == q
  {
    hide Quot;
    QuotBounds(a, s);
    var r := Quot(a, s);
    if r < q {
      MulAtLeast(r + 1, q, s);
    } else if q < r {
      MulAtLeast(q + 1, r, s);
    }
  }

  lemma QuotStep(a: nat, s: nat)
    requires s >= 1
    ensures s <= a ==> Quot(a, s) == Quot(a - s, s) + 1
    ensures a < s ==> Quot(a, s) == 0
  {
    hide Quot;
    if s <= a {
      QuotBounds(a - s, s);
      var q := Quot(a - s, s);
      assert s * (q + 1) == s * q + s;
      QuotIs(a, s, q + 1);
    } else {
      QuotIs(a, s, 0);
    }
  }

  lemma QuotMonotone(a: nat, b: nat, s: nat)
    requires a <= b && s >= 1
    ensures Quot(a, s) <= Quot(b, s)
  {
    hide Quot;
    QuotBounds(a, s);
    QuotBounds(b, s);
    if Quot(b, s) + 1 <= Quot(a, s) {
      MulAtLeast(Quot(b, s) + 1, Quot(a, s), s);
    }
  }

  /** `q` is `a / s`, rounded down. */
  ghost predicate IsQuotient(q: nat, a: nat, s: nat) {
    q * s <= a < (q + 1) * s
  }

  /** `BIG_STRIDE / priority` */
  function Stride(priority: nat): (r: nat)
    requires priority >= 1
    ensures IsQuotient(r, BIG_STRIDE, priority)
    ensures priority >= 2 ==> r <= BIG_STRIDE / 2
    ensures 1 <= r <==> priority <= BIG_STRIDE
  {
    StrideRange(priority);
    Quot(BIG_STRIDE, priority)
  }

  lemma StrideRange(priority: nat)
    requires priority >= 1
    ensures priority >= 2 ==> Quot(BIG_STRIDE, priority) <= BIG_STRIDE / 2
    ensures 1 <= Quot(BIG_STRIDE, priority) <==> priority <= BIG_STRIDE
    ensures IsQuotient(Quot(BIG_STRIDE, priority), BIG_STRIDE, priority)
  {
    hide Quot;
    QuotStep(BIG_STRIDE, priority);
    QuotBounds(BIG_STRIDE, priority);
    if priority >= 2 {
      MulAtLeast(2, priority, Quot(BIG_STRIDE, priority));
    }
  }

  /** The first position of the smallest pass. */
  ghost predicate IsPick(ps: seq<nat>, k: nat) {
    && k < |ps|
    && (forall j :: 0 <= j < |ps| ==> ps[k] <= ps[j])
    && (forall j :: 0 <= j < k ==> ps[k] < ps[j])
  }

  function Pick(ps: seq<nat>): (k: nat)
    requires ps != []
    ensures IsPick(ps, k)
  {
    if |ps| == 1 then 0
    else
      var k := Pick(ps[..|ps| - 1]);
      assert forall j :: 0 <= j < |ps| - 1 ==> ps[..|ps| - 1][j] == ps[j];
      if ps[k] > ps[|ps| - 1] then |ps| - 1 else k
  }

  lemma PickIsUnique(ps: seq<nat>, k: nat)
    requires IsPick(ps, k)
    ensures k == Pick(ps)
  {
  }

  // ----- the ready queue between a yield and the next fetch

  datatype Item = Item(id: nat, pass: nat, priority: nat)

  function Passes(q: seq<Item>): (ps: seq<nat>)
    ensures |ps| == |q| && forall i :: 0 <= i < |q| ==> ps[i] == q[i].pass
  {
    seq(|q|, i requires 0 <= i < |q| => q[i].pass)
  }

  /** The 64-bit addition in `fetch`. */
  function Advanced(t: Item): Item
    requires t.priority >= 1
  {
    t.(pass := (t.pass + Stride(t.priority)) % WORD)
  }

  ghost predicate Schedulable(q: seq<Item>) {
    forall i :: 0 <= i < |q| ==> 2 <= q[i].priority
  }

  /** The task that `fetch` returns. */
  function Chosen(q: seq<Item>): Item
    requires q != []
  {
    q[Pick(Passes(q))]
  }

  /** One `fetch` and the `add` of the same task when it yields. */
  function Round(q: seq<Item>): (r: seq<Item>)
    requires q != [] && Chosen(q).priority >= 1
    ensures |r| == |q|
  {
    var k := Pick(Passes(q));
    q[..k] + q[k + 1..] + [Advanced(q[k])]
  }

  lemma RoundSchedulable(q: seq<Item>)
    requires Schedulable(q) && q != []
    ensures Schedulable(Round(q))
  {
    var k := Pick(Passes(q));
    forall i | 0 <= i < |q| ensures Round(q)[i].priority >= 2 {
      assert Round(q)[i].priority == (if i < k then q[i] else if i < |q| - 1 then q[i + 1] else q[k]).priority;
    }
  }

  /** The ids returned by `n` fetches, each followed by a yield. */
  function Picks(q: seq<Item>, n: nat): (r: seq<nat>)
    requires q != [] && Schedulable(q)
    ensures |r| == n
    decreases n
  {
    if n == 0 then []
    else
      RoundSchedulable(q);
      [Chosen(q).id] + Picks(Round(q), n - 1)
  }

  // ----- no starvation

  ghost predicate DistinctIds(q: seq<Item>) {
    forall i, j :: 0 <= i < j < |q| ==> q[i].id != q[j].id
  }

  /** Priorities that give every task a stride of at least 1. */
  ghost predicate Fair(q: seq<Item>) {
    (forall i :: 0 <= i < |q| ==> 2 <= q[i].priority <= BIG_STRIDE) && DistinctIds(q)
  }

  /** A priority above BIG_STRIDE gives stride 0: the task never falls back. */
  predicate Still(t: Item) { t.priority > BIG_STRIDE }

  /** Some task with stride 0 stays below `pass` for ever. */
  ghost predicate Blocked(q: seq<Item>, pass: nat) {
    exists j :: 0 <= j < |q| && Still(q[j]) && q[j].pass < pass
  }

  ghost function StillOnes(q: seq<Item>): nat {
    if q == [] then 0 else StillOnes(q[..|q| - 1]) + (if Still(q[|q| - 1]) then 1 else 0)
  }

  lemma {:induction false} StillOnesSplit(a: seq<Item>, b: seq<Item>)
    ensures StillOnes(a + b) == StillOnes(a) + StillOnes(b)
  {
    if b == [] {
      assert a + b == a;
    } else {
      assert (a + b)[..|a + b| - 1] == a + b[..|b| - 1];
      StillOnesSplit(a, b[..|b| - 1]);
    }
  }

  lemma {:induction false} NoStillOnes(q: seq<Item>)
    requires forall i :: 0 <= i < |q| ==> !Still(q[i])
    ensures StillOnes(q) == 0
  {
    if q != [] {
      NoStillOnes(q[..|q| - 1]);
    }
  }

  /** How often `t` can still be chosen before its pass exceeds `pass`. */
  ghost function Debt(t: Item, pass: nat): nat {
    if 2 <= t.priority <= BIG_STRIDE && t.pass <= pass then Quot(pass - t.pass, Stride(t.priority)) + 1 else 0
  }

  /** The same for all tasks but `id`. */
  ghost function TotalDebt(q: seq<Item>, id: nat, pass: nat): nat {
    if q == [] then 0
    else TotalDebt(q[..|q| - 1], id, pass) + (if q[|q| - 1].id == id then 0 else Debt(q[|q| - 1], pass))
  }

  lemma {:induction false} TotalDebtSplits(a: seq<Item>, b: seq<Item>, id: nat, pass: nat)
    ensures TotalDebt(a + b, id, pass) == TotalDebt(a, id, pass) + TotalDebt(b, id, pass)
  {
    if b == [] {
      assert a + b == a;
    } else {
      assert (a + b)[..|a + b| - 1] == a + b[..|b| - 1];
      TotalDebtSplits(a, b[..|b| - 1], id, pass);
    }
  }

  lemma DebtPaid(t: Item, pass: nat)
    requires 2 <= t.priority <= BIG_STRIDE && t.pass <= pass && pass + BIG_STRIDE / 2 < WORD
    ensures Debt(t, pass) == Debt(Advanced(t), pass) + 1
  {
    hide Quot, Stride;
    QuotStep(pass - t.pass, Stride(t.priority));
  }

  /** The fetches that task `i` may have to wait for: the others' turns until they are
      past it, and one for each task with stride 0 that stands before it. */
  ghost function WaitTime(q: seq<Item>, i: nat): nat
    requires i < |q|
  {
    TotalDebt(q, q[i].id, q[i].pass) + StillOnes(q[..i])
  }

  /** Every fetch that does not choose task `i` brings it one closer. */
  lemma RoundShortensWait(q: seq<Item>, i: nat) returns (j: nat)
    requires Schedulable(q) && DistinctIds(q) && i < |q| && q[i].pass + BIG_STRIDE / 2 < WORD
    requires !Blocked(q, q[i].pass) && Chosen(q).id != q[i].id
    ensures DistinctIds(Round(q)) && j < |q| && Round(q)[j] == q[i]
    ensures !Blocked(Round(q), q[i].pass) && WaitTime(q, i) == WaitTime(Round(q), j) + 1
  {
    hide Quot, Stride, Debt, TotalDebt, StillOnes;
    var id, pass, k, r := q[i].id, q[i].pass, Pick(Passes(q)), Round(q);
    RoundAt(q, k);
    j := if i < k then i else i - 1;
    StandsAhead(q, i, k);
    ChosenPays(q[k], pass);
    DebtMovesBack(q, k, Advanced(q[k]), id, pass);
  }

  /** The tasks with stride 0 before task `i` are one fewer if the chosen one was among
      them. */
  lemma StandsAhead(q: seq<Item>, i: nat, k: nat)
    requires Schedulable(q) && i < |q| && q != [] && k == Pick(Passes(q)) && k != i && !Blocked(q, q[i].pass)
    ensures var j := if i < k then i else i - 1;
            StillOnes(q[..i]) == StillOnes(Round(q)[..j]) + if Still(q[k]) then 1 else 0
    ensures q[k].pass <= q[i].pass && (Still(q[k]) ==> q[k].pass == q[i].pass)
  {
    hide Quot, Stride, StillOnes, Advanced;
    assert Passes(q)[k] <= Passes(q)[i];
    if i < k {
      assert Round(q)[..i] == q[..i];
      assert Passes(q)[k] < Passes(q)[i];
    } else {
      assert Round(q)[..i - 1] == q[..k] + q[k + 1..i];
      assert q[..i] == q[..k] + ([q[k]] + q[k + 1..i]);
      StillOnesSplit(q[..k], [q[k]] + q[k + 1..i]);
      StillOnesSplit([q[k]], q[k + 1..i]);
      StillOnesSplit(q[..k], q[k + 1..i]);
      OneStill(q[k]);
    }
  }

  lemma OneStill(t: Item)
    ensures StillOnes([t]) == if Still(t) then 1 else 0
  {
  }

  lemma ChosenPays(t: Item, pass: nat)
    requires 2 <= t.priority && t.pass <= pass && pass + BIG_STRIDE / 2 < WORD
    ensures Debt(t, pass) == Debt(Advanced(t), pass) + if Still(t) then 0 else 1
    ensures Still(t) ==> Advanced(t) == t
  {
    hide Quot, Stride;
    if !Still(t) {
      DebtPaid(t, pass);
    }
  }

  lemma DebtMovesBack(q: seq<Item>, k: nat, c: Item, id: nat, pass: nat)
    requires k < |q| && q[k].id == c.id != id
    ensures TotalDebt(q[..k] + q[k + 1..] + [c], id, pass) + Debt(q[k], pass) == TotalDebt(q, id, pass) + Debt(c, pass)
  {
    hide Debt;
    assert q == q[..k] + ([q[k]] + q[k + 1..]);
    TotalDebtSplits(q[..k], [q[k]] + q[k + 1..], id, pass);
    TotalDebtSplits([q[k]], q[k + 1..], id, pass);
    TotalDebtSplits(q[..k] + q[k + 1..], [c], id, pass);
    TotalDebtSplits(q[..k], q[k + 1..], id, pass);
    assert TotalDebt([q[k]], id, pass) == Debt(q[k], pass);
    assert TotalDebt([c], id, pass) == Debt(c, pass);
  }

  lemma RoundAt(q: seq<Item>, k: nat)
    requires Schedulable(q) && DistinctIds(q) && q != [] && k == Pick(Passes(q))
    ensures DistinctIds(Round(q))
    ensures forall j :: 0 <= j < |q| ==>
              Round(q)[j] == if j < k then q[j] else if j < |q| - 1 then q[j + 1] else Advanced(q[k])
  {
    hide Quot, Stride, Pick;
  }

  /** A task that nobody blocks is chosen within its wait plus one fetches. */
  lemma {:induction false} NoStarvation(q: seq<Item>, i: nat)
    requires Schedulable(q) && DistinctIds(q) && i < |q| && q[i].pass + BIG_STRIDE / 2 < WORD
    requires !Blocked(q, q[i].pass)
    ensures q[i].id in Picks(q, WaitTime(q, i) + 1)
    decreases WaitTime(q, i)
  {
    hide Quot, Stride, WaitTime, Round, Blocked, DistinctIds;
    var n := WaitTime(q, i);
    if Chosen(q).id == q[i].id {
      assert Picks(q, n + 1)[0] == q[i].id;
    } else {
      RoundSchedulable(q);
      var j := RoundShortensWait(q, i);
      NoStarvation(Round(q), j);
      assert Picks(q, n + 1) == [Chosen(q).id] + Picks(Round(q), n);
    }
  }

  /** A blocked task is not chosen by any number of fetches. */
  lemma {:induction false} BlockedStarves(q: seq<Item>, i: nat, n: nat)
    requires Schedulable(q) && DistinctIds(q) && i < |q| && q[i].pass < WORD && Blocked(q, q[i].pass)
    ensures q[i].id !in Picks(q, n)
    decreases n
  {
    hide Quot, Stride, Round, DistinctIds;
    if n > 0 {
      RoundSchedulable(q);
      var j := StillBlocked(q, i);
      BlockedStarves(Round(q), j, n - 1);
      assert Picks(q, n) == [Chosen(q).id] + Picks(Round(q), n - 1);
    }
  }

  lemma StillBlocked(q: seq<Item>, i: nat) returns (j: nat)
    requires Schedulable(q) && DistinctIds(q) && i < |q| && q[i].pass < WORD && Blocked(q, q[i].pass)
    ensures DistinctIds(Round(q)) && Chosen(q).id != q[i].id
    ensures j < |q| && Round(q)[j] == q[i] && Blocked(Round(q), q[i].pass)
  {
    hide Quot, Stride, Pick, Advanced, IsQuotient;
    var k := Pick(Passes(q));
    var z :| 0 <= z < |q| && Still(q[z]) && q[z].pass < q[i].pass;
    assert Passes(q)[k] <= Passes(q)[z] && k != i;
    RoundAt(q, k);
    j := if i < k then i else i - 1;
    StillAdvanced(q[k]);
    var z' := if z < k then z else if z == k then |q| - 1 else z - 1;
    assert Round(q)[z'] == q[z];
  }

  lemma StillAdvanced(t: Item)
    requires 2 <= t.priority && t.pass < WORD
    ensures Still(t) ==> Advanced(t) == t
  {
    hide Quot, Stride;
  }

  /** Task `i` is ever chosen if and only if no task with stride 0 has a lower pass. */
  lemma ChosenIffNotBlocked(q: seq<Item>, i: nat)
    requires Schedulable(q) && DistinctIds(q) && i < |q| && q[i].pass + BIG_STRIDE / 2 < WORD
    ensures (exists n: nat :: q[i].id in Picks(q, n)) <==> !Blocked(q, q[i].pass)
  {
    hide Quot, Stride, WaitTime, Blocked, DistinctIds, Picks;
    if Blocked(q, q[i].pass) {
      forall n: nat ensures q[i].id !in Picks(q, n) {
        BlockedStarves(q, i, n);
      }
    } else {
      NoStarvation(q, i);
    }
  }

  /** Passes that differ by at most half of the big stride. */
  ghost predicate Close(ps: seq<nat>) {
    forall i, j :: 0 <= i < |ps| && 0 <= j < |ps| ==> ps[i] <= ps[j] + BIG_STRIDE / 2
  }

  /** The sum over the other tasks of (BIG_STRIDE / 2) / stride + 1. */
  ghost function WaitBound(q: seq<Item>, id: nat): nat {
    if q == [] then 0
    else
      var t := q[|q| - 1];
      WaitBound(q[..|q| - 1], id) +
      (if t.id == id || !(2 <= t.priority <= BIG_STRIDE) then 0 else Quot(BIG_STRIDE / 2, Stride(t.priority)) + 1)
  }

  lemma {:induction false} DebtIsBounded(q: seq<Item>, id: nat, pass: nat)
    requires forall i :: 0 <= i < |q| ==> pass <= q[i].pass + BIG_STRIDE / 2
    ensures TotalDebt(q, id, pass) <= WaitBound(q, id)
  {
    hide Quot, Stride;
    if q != [] {
      var t := q[|q| - 1];
      DebtIsBounded(q[..|q| - 1], id, pass);
      if 2 <= t.priority <= BIG_STRIDE && t.pass <= pass {
        QuotMonotone(pass - t.pass, BIG_STRIDE / 2, Stride(t.priority));
      }
    }
  }

  /** The sum of the priorities of the other tasks. */
  ghost function OtherPriorities(q: seq<Item>, id: nat): nat {
    if q == [] then 0
    else
      OtherPriorities(q[..|q| - 1], id) + (if q[|q| - 1].id == id then 0 else q[|q| - 1].priority)
  }

  /** A task can be fetched less than `priority` times while its pass advances by half of the
      big stride. */
  lemma TurnsInHalf(priority: nat)
    requires 2 <= priority <= BIG_STRIDE
    ensures Quot(BIG_STRIDE / 2, Stride(priority)) < priority
  {
    hide Quot, Stride;
    var s := Stride(priority);
    var k := Quot(BIG_STRIDE / 2, s);
    QuotBounds(BIG_STRIDE / 2, s);
    MulAtLeast(1, s, priority);
    assert (s + 1) * priority == s * priority + priority;
    if priority <= k {
      MulAtLeast(priority, k, s);
      assert false;
    }
  }

  lemma {:induction false} WaitBelowPriorities(q: seq<Item>, id: nat)
    ensures WaitBound(q, id) <= OtherPriorities(q, id)
  {
    hide Quot, Stride;
    if q != [] {
      var t := q[|q| - 1];
      WaitBelowPriorities(q[..|q| - 1], id);
      if 2 <= t.priority <= BIG_STRIDE {
        TurnsInHalf(t.priority);
      }
    }
  }

  /** In a closed ready set with close passes, no task waits longer than the bound. */
  lemma BoundedWait(q: seq<Item>, i: nat)
    requires Fair(q) && Schedulable(q) && Close(Passes(q)) && i < |q| && q[i].pass + BIG_STRIDE / 2 < WORD
    ensures q[i].id in Picks(q, WaitBound(q, q[i].id) + 1)
  {
    hide Quot, Stride, Debt, TotalDebt, WaitBound, Picks, IsQuotient, Passes, Close, Schedulable, StillOnes;
    var id, pass := q[i].id, q[i].pass;
    CloseTo(q, i);
    DebtIsBounded(q, id, pass);
    NoStillOnes(q[..i]);
    NoStarvation(q, i);
    MorePicks(q, WaitTime(q, i) + 1, WaitBound(q, id) + 1);
  }

  lemma CloseTo(q: seq<Item>, i: nat)
    requires Close(Passes(q)) && i < |q|
    ensures forall j :: 0 <= j < |q| ==> q[i].pass <= q[j].pass + BIG_STRIDE / 2
  {
    forall j | 0 <= j < |q| ensures q[i].pass <= q[j].pass + BIG_STRIDE / 2 {
      assert Passes(q)[i] <= Passes(q)[j] + BIG_STRIDE / 2;
    }
  }

  /** So none waits for more fetches than the sum of the others' priorities. */
  lemma WaitInPriorities(q: seq<Item>, i: nat)
    requires Fair(q) && Schedulable(q) && Close(Passes(q)) && i < |q| && q[i].pass + BIG_STRIDE / 2 < WORD
    ensures q[i].id in Picks(q, OtherPriorities(q, q[i].id) + 1)
  {
    hide Fair, Schedulable, Close, WaitBound, OtherPriorities, Picks;
    var id := q[i].id;
    BoundedWait(q, i);
    WaitBelowPriorities(q, id);
    MorePicks(q, WaitBound(q, id) + 1, OtherPriorities(q, id) + 1);
  }

  lemma {:induction false} MorePicks(q: seq<Item>, m: nat, n: nat)
    requires q != [] && Schedulable(q) && m <= n
    ensures Picks(q, m) <= Picks(q, n)
    decreases n
  {
    if m > 0 {
      RoundSchedulable(q);
      MorePicks(Round(q), m - 1, n - 1);
    }
  }

  // ----- the FIFO scheduler

  /** `pop_front` and, when the task yields, `push_back`. */
  function FifoPicks(ids: seq<nat>, n: nat): (r: seq<nat>)
    requires ids != []
    ensures |r| == n
    decreases n
  {
    if n == 0 then [] else [ids[0]] + FifoPicks(ids[1..] + [ids[0]], n - 1)
  }

  function Ids(q: seq<Item>): (ids: seq<nat>)
    ensures |ids| == |q| && forall i :: 0 <= i < |q| ==> ids[i] == q[i].id
  {
    seq(|q|, i requires 0 <= i < |q| => q[i].id)
  }

  /** Equal strides, and the front `m` tasks one stride behind the rest. */
  ghost predicate Level(q: seq<Item>, m: nat, pass: nat, priority: nat) {
    && 0 < m <= |q| && priority >= 2
    && forall i :: 0 <= i < |q| ==> q[i].priority == priority && q[i].pass == if i < m then pass else pass + Stride(priority)
  }

  /** None of the next `n` fetches wraps the pass that it advances. */
  ghost predicate NoneWraps(q: seq<Item>, n: nat)
    requires q != [] && Schedulable(q)
    decreases n
  {
    n > 0 ==>
      && Chosen(q).pass + Stride(Chosen(q).priority) < WORD
      && (RoundSchedulable(q); NoneWraps(Round(q), n - 1))
  }

  /** With equal priorities and equal passes, the stride scheduler is the FIFO one, as
      long as no pass wraps. */
  lemma {:induction false} StrideIsFifo(q: seq<Item>, m: nat, pass: nat, priority: nat, n: nat)
    requires Level(q, m, pass, priority) && Schedulable(q) && NoneWraps(q, n)
    ensures Picks(q, n) == FifoPicks(Ids(q), n)
    decreases n
  {
    hide Quot, Stride, Round, Ids, Advanced, Pick;
    if n > 0 {
      RoundSchedulable(q);
      LevelRound(q, m, pass, priority);
      if m > 1 {
        StrideIsFifo(Round(q), m - 1, pass, priority, n - 1);
      } else {
        StrideIsFifo(Round(q), |q|, pass + Stride(priority), priority, n - 1);
      }
    }
  }

  /** One round on such a queue moves the front task to the back, one stride on. */
  lemma LevelRound(q: seq<Item>, m: nat, pass: nat, priority: nat)
    requires Level(q, m, pass, priority) && Schedulable(q) && Chosen(q).pass + Stride(Chosen(q).priority) < WORD
    ensures Chosen(q) == q[0] && Ids(Round(q)) == Ids(q)[1..] + [Ids(q)[0]]
    ensures if m > 1 then Level(Round(q), m - 1, pass, priority) else Level(Round(q), |q|, pass + Stride(priority), priority)
  {
    hide Quot, Stride, Ids;
    PickIsUnique(Passes(q), 0);
    var s, r := Advanced(q[0]), Round(q);
    assert s.pass == pass + Stride(priority) && s.id == q[0].id && s.priority == priority;
    assert r == q[1..] + [s];
    assert forall i :: 0 <= i < |q| ==> r[i] == if i < |q| - 1 then q[i + 1] else s;
  }
}
