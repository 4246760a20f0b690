/**
  In-degree scheduling of the subtasks of a task (`Schedule`, src/master/scheduler.go:33-54).

  `posts[u]` are the subtasks that wait for `u` (`PostTasks`). The set of finished subtasks is not
  kept by the source; it is the history the counters are measured against.
*/
module Scheduler {
  import opened Words

  type Graph = seq<seq<nat>>

  datatype Counters = Counters(inDeg: seq<u32>, finishCnt: u32)

  predicate InRange(g: Graph) {
    forall u, k | 0 <= u < |g| && 0 <= k < |g[u]| :: g[u][k] < |g|
  }

  /** The loop over the post tasks, from the `k`-th on. */
  function Lower(inDeg: seq<u32>, post: seq<nat>, k: nat): (d: seq<u32>)
    requires k <= |post| && forall j | 0 <= j < |post| :: post[j] < |inDeg|
    ensures |d| == |inDeg|
    decreases |post| - k
  {
    if k == |post| then inDeg
    else Lower(inDeg[post[k] := Sub(inDeg[post[k]], 1)], post, k + 1)
  }

  /** `Schedule` with a finished subtask. */
  function Finish(g: Graph, c: Counters, u: nat): Counters
    requires InRange(g) && |c.inDeg| == |g| && u < |g|
  {
    Counters(Lower(c.inDeg, g[u], 0), Add(c.finishCnt, 1))
  }

  function Done(g: Graph, c: Counters): bool { c.finishCnt == Wrap(|g|) }

  // ---- The task object ----

  class SubTask {
    const PostTasks: seq<nat>
    var InDeg: u32

    constructor (post: seq<nat>, inDeg: u32)
      ensures PostTasks == post && InDeg == inDeg
    {
      PostTasks, InDeg := post, inDeg;
    }
  }

  class Task {
    var FinishCnt: u32
    const SubTasks: seq<SubTask>

    /** The list holds distinct subtasks, and `PostTasks` are indices into it. */
    ghost predicate Valid() {
      && (forall i, j | 0 <= i < j < |SubTasks| :: SubTasks[i] != SubTasks[j])
      && InRange(Posts())
    }

    ghost function Posts(): (g: Graph)
      ensures |g| == |SubTasks|
    {
      seq(|SubTasks|, i requires 0 <= i < |SubTasks| => SubTasks[i].PostTasks)
    }

    ghost function View(): (c: Counters)
      reads this, SubTasks
      ensures |c.inDeg| == |SubTasks|
      ensures forall i | 0 <= i < |SubTasks| :: c.inDeg[i] == SubTasks[i].InDeg
    {
      Counters(Degrees(SubTasks), FinishCnt)
    }

    constructor (subTasks: seq<SubTask>)
      ensures SubTasks == subTasks && FinishCnt == 0
    {
      SubTasks, FinishCnt := subTasks, 0;
    }

    /** `Schedule(task, finishTask)`. */
    method Schedule(finished: nat) returns (fin: bool)
      requires Valid() && finished < |SubTasks|
      modifies this, SubTasks
      ensures View() == Finish(Posts(), old(View()), finished)
      ensures fin <==> Done(Posts(), View())
    {
      var post := SubTasks[finished].PostTasks;
      assert post == Posts()[finished];
      for k := 0 to |post|
        invariant FinishCnt == old(FinishCnt)
        invariant Lower(View().inDeg, post, k) == Lower(old(View()).inDeg, post, 0)
      {
        ghost var before := View().inDeg;
        var subTask := SubTasks[post[k]];
        subTask.InDeg := Sub(subTask.InDeg, 1);
        assert View().inDeg == before[post[k] := Sub(before[post[k]], 1)];
      }
      FinishCnt := Add(FinishCnt, 1);
      fin := FinishCnt == Wrap(|SubTasks|);
    }
  }

  ghost function Degrees(ts: seq<SubTask>): (d: seq<u32>)
    reads ts
    ensures |d| == |ts| && forall i | 0 <= i < |ts| :: d[i] == ts[i].InDeg
  {
    if ts == [] then [] else [ts[0].InDeg] + Degrees(ts[1..])
  }

  // ---- What the counters mean ----

  /** How often `t` occurs in a list of post tasks. */
  ghost function Mult(post: seq<nat>, t: nat): nat {
    if post == [] then 0 else (if post[0] == t then 1 else 0) + Mult(post[1..], t)
  }

  /** Edges into `t` from the unfinished ones among the first `n` subtasks. */
  ghost function Waiting(g: Graph, finished: set<nat>, t: nat, n: nat): nat
    requires n <= |g|
  {
    if n == 0 then 0
    else Waiting(g, finished, t, n - 1) + (if n - 1 in finished then 0 else Mult(g[n - 1], t))
  }

  ghost predicate Inv(g: Graph, c: Counters, finished: set<nat>) {
    && InRange(g) && |c.inDeg| == |g| < TWO32
    && (forall u | u in finished :: u < |g|)
    && c.finishCnt == |finished|
    && forall t: nat | t < |g| :: c.inDeg[t] == Waiting(g, finished, t, |g|)
  }

  lemma {:induction false} WaitingDrops(g: Graph, finished: set<nat>, u: nat, t: nat, n: nat)
    requires n <= |g| && u < |g| && u !in finished
    ensures Waiting(g, finished, t, n) == Waiting(g, finished + {u}, t, n) + (if u < n then Mult(g[u], t) else 0)
  {
    if n > 0 { WaitingDrops(g, finished, u, t, n - 1); }
  }

  /** The loop subtracts the multiplicity of each subtask, without underflow if there is enough. */
  lemma {:induction false} LowerSubtracts(inDeg: seq<u32>, post: seq<nat>, k: nat)
    requires k <= |post| && forall j | 0 <= j < |post| :: post[j] < |inDeg|
    requires forall t: nat | t < |inDeg| :: Mult(post[k..], t) <= inDeg[t]
    ensures forall t: nat | t < |inDeg| :: Lower(inDeg, post, k)[t] == inDeg[t] - Mult(post[k..], t)
    decreases |post| - k
  {
    if k < |post| {
      assert post[k..][0] == post[k] && post[k..][1..] == post[k + 1..];
      var p := post[k];
      assert Mult(post[k..], p) >= 1;
      ResidueIs(inDeg[p] - 1, inDeg[p] - 1, 0);
      var next := inDeg[p := Sub(inDeg[p], 1)];
      forall t: nat | t < |inDeg| ensures Mult(post[k + 1..], t) <= next[t] {
        assert Mult(post[k..], t) <= inDeg[t];
      }
      LowerSubtracts(next, post, k + 1);
    }
  }

  ghost predicate AllIn(finished: set<nat>, n: nat) { forall u: nat | u < n :: u in finished }

  lemma {:induction false} SizeBound(finished: set<nat>, n: nat)
    requires forall u | u in finished :: u < n
    ensures |finished| <= n
    ensures |finished| == n <==> AllIn(finished, n)
    decreases n
  {
    if n == 0 {
      assert finished == {};
    } else if n - 1 in finished {
      var less := finished - {n - 1};
      SizeBound(less, n - 1);
      assert |less| == |finished| - 1;
      assert AllIn(finished, n) ==> forall u: nat | u < n - 1 :: u in less;
      assert AllIn(less, n - 1) ==> forall u: nat | u < n :: u in finished by {
        assert forall u: nat | u in less :: u in finished;
      }
    } else {
      SizeBound(finished, n - 1);
    }
  }

  /** A subtask is ready: not finished, and its counter is zero. */
  ghost predicate Ready(g: Graph, c: Counters, finished: set<nat>, u: nat) {
    u < |g| && |c.inDeg| == |g| && u !in finished && c.inDeg[u] == 0
  }

  /** Finishing a subtask once keeps every counter equal to the unfinished predecessors, without
      underflow, and `Schedule` answers true exactly when it was the last one. */
  lemma FinishKeeps(g: Graph, c: Counters, finished: set<nat>, u: nat)
    requires Inv(g, c, finished) && u < |g| && u !in finished
    ensures var c' := Finish(g, c, u);
      && Inv(g, c', finished + {u})
      && (forall t: nat | t < |g| :: c'.inDeg[t] <= c.inDeg[t])
      && (Done(g, c') <==> AllIn(finished + {u}, |g|))
  {
    forall t: nat | t < |g| ensures Mult(g[u], t) <= c.inDeg[t]
      ensures c.inDeg[t] == Waiting(g, finished + {u}, t, |g|) + Mult(g[u], t)
    {
      WaitingDrops(g, finished, u, t, |g|);
    }
    assert g[u][0..] == g[u];
    LowerSubtracts(c.inDeg, g[u], 0);
    SizeBound(finished, |g|);
    SizeBound(finished + {u}, |g|);
    assert |finished + {u}| == |finished| + 1;
    ResidueIs(|g|, |g|, 0);
    ResidueIs(|finished| + 1, |finished| + 1, 0);
  }

  // ---- Readiness and progress ----

  /** A counter is zero exactly when every predecessor is finished. */
  lemma {:induction false} WaitingZero(g: Graph, finished: set<nat>, t: nat, n: nat)
    requires n <= |g|
    ensures Waiting(g, finished, t, n) == 0 <==> forall u: nat | u < n && u !in finished :: t !in g[u]
  {
    if n > 0 {
      WaitingZero(g, finished, t, n - 1);
      MultZero(g[n - 1], t);
    }
  }

  lemma {:induction false} MultZero(post: seq<nat>, t: nat)
    ensures Mult(post, t) == 0 <==> t !in post
    decreases |post|
  {
    if post != [] {
      MultZero(post[1..], t);
      assert post == [post[0]] + post[1..];
    }
  }

  /** `rank` orders the subtasks so that every edge goes up: the task is acyclic. */
  ghost predicate Acyclic(g: Graph, rank: seq<nat>) {
    |rank| == |g| && forall u, t | 0 <= u < |g| && t in g[u] && t < |g| :: rank[u] < rank[t]
  }

  lemma {:induction false} LowestUnfinished(g: Graph, rank: seq<nat>, finished: set<nat>, n: nat) returns (m: nat)
    requires |rank| == |g| && n <= |g| && exists u: nat :: u < n && u !in finished
    ensures m < n && m !in finished && forall u: nat | u < n && u !in finished :: rank[m] <= rank[u]
  {
    if u: nat :| u < n - 1 && u !in finished {
      m := LowestUnfinished(g, rank, finished, n - 1);
      if n - 1 !in finished && rank[n - 1] < rank[m] {
        m := n - 1;
      }
    } else {
      m := n - 1;
    }
  }

  /** Until all are finished, some unfinished subtask of an acyclic task is ready. */
  lemma SomeReady(g: Graph, rank: seq<nat>, c: Counters, finished: set<nat>) returns (u: nat)
    requires Inv(g, c, finished) && Acyclic(g, rank) && exists v: nat :: v < |g| && v !in finished
    ensures Ready(g, c, finished, u)
  {
    u := LowestUnfinished(g, rank, finished, |g|);
    WaitingZero(g, finished, u, |g|);
  }

  // ---- Whole schedules ----

  /** A schedule: every subtask at most once, and each only when its counter is zero. */
  ghost predicate Legal(g: Graph, c: Counters, finished: set<nat>, order: seq<nat>)
    requires InRange(g)
    decreases |order|
  {
    order == [] ||
    (Ready(g, c, finished, order[0]) && Legal(g, Finish(g, c, order[0]), finished + {order[0]}, order[1..]))
  }

  ghost predicate Within(g: Graph, order: seq<nat>) { forall k | 0 <= k < |order| :: order[k] < |g| }

  ghost function RunAll(g: Graph, c: Counters, order: seq<nat>): Counters
    requires InRange(g) && |c.inDeg| == |g| && Within(g, order)
    decreases |order|
  {
    if order == [] then c else RunAll(g, Finish(g, c, order[0]), order[1..])
  }

  ghost function SetOf(order: seq<nat>): set<nat> { if order == [] then {} else {order[0]} + SetOf(order[1..]) }

  lemma LegalHead(g: Graph, c: Counters, finished: set<nat>, order: seq<nat>)
    requires Inv(g, c, finished) && Legal(g, c, finished, order) && order != []
    ensures order[0] < |g| && order[0] !in finished && PredecessorsIn(g, order[0], finished)
    ensures var c' := Finish(g, c, order[0]);
      && Inv(g, c', finished + {order[0]}) && Legal(g, c', finished + {order[0]}, order[1..])
      && (Done(g, c') <==> AllIn(finished + {order[0]}, |g|))
  {
    FinishKeeps(g, c, finished, order[0]);
    WaitingZero(g, finished, order[0], |g|);
  }

  ghost predicate PredecessorsIn(g: Graph, t: nat, s: set<nat>) {
    forall v: nat | v < |g| && t in g[v] :: v in s
  }

  lemma SetOfCons(finished: set<nat>, order: seq<nat>)
    requires order != []
    ensures finished + {order[0]} + SetOf(order[1..]) == finished + SetOf(order)
    ensures order[1..] == [] ==> finished + {order[0]} == finished + SetOf(order)
  {
    assert order[1..] == [] ==> SetOf(order[1..]) == {};
  }

  lemma SetOfPrefix(finished: set<nat>, order: seq<nat>, i: nat)
    requires 0 < i < |order|
    ensures finished + {order[0]} + SetOf(order[1..][..i - 1]) == finished + SetOf(order[..i])
  {
    assert order[..i][1..] == order[1..][..i - 1];
    SetOfCons(finished, order[..i]);
  }

  lemma SetOfNone(finished: set<nat>)
    ensures finished + SetOf([]) == finished
  {}

  lemma WithinCons(g: Graph, order: seq<nat>)
    requires order != [] && order[0] < |g| && Within(g, order[1..])
    ensures Within(g, order)
  {
    assert order == [order[0]] + order[1..];
  }

  /** In every legal schedule the counters stay exact, and completion is reported exactly when
      everything was run. */
  lemma {:induction false} ScheduleExact(g: Graph, c: Counters, finished: set<nat>, order: seq<nat>)
    requires Inv(g, c, finished) && Legal(g, c, finished, order)
    ensures Within(g, order)
    ensures Inv(g, RunAll(g, c, order), finished + SetOf(order))
    ensures order != [] ==> (Done(g, RunAll(g, c, order)) <==> AllIn(finished + SetOf(order), |g|))
    decreases |order|
  {
    SetOfNone(finished);
    assert |c.inDeg| == |g| && InRange(g);
    if order != [] {
      var u := order[0];
      LegalHead(g, c, finished, order);
      hide Inv, Finish, Done, AllIn, Legal, InRange, SetOf, Within;
      ScheduleExact(g, Finish(g, c, u), finished + {u}, order[1..]);
      WithinCons(g, order);
      SetOfCons(finished, order);
    }
  }

  /** In every legal schedule each subtask runs after all its predecessors. */
  lemma {:induction false} PredecessorsFirst(g: Graph, c: Counters, finished: set<nat>, order: seq<nat>, i: nat)
    requires Inv(g, c, finished) && Legal(g, c, finished, order) && i < |order|
    ensures PredecessorsIn(g, order[i], finished + SetOf(order[..i]))
    decreases i
  {
    var u := order[0];
    LegalHead(g, c, finished, order);
    SetOfNone(finished);
    assert |c.inDeg| == |g| && InRange(g);
    hide Inv, Finish, Done, AllIn, Legal, InRange, PredecessorsIn, SetOf;
    if i > 0 {
      PredecessorsFirst(g, Finish(g, c, u), finished + {u}, order[1..], i - 1);
      SetOfPrefix(finished, order, i);
    } else {
      assert order[..0] == [];
    }
  }

  /** Every acyclic task can be completed from any reachable state: a legal order of all that is left
      exists. */
  lemma {:induction false} CanComplete(g: Graph, rank: seq<nat>, c: Counters, finished: set<nat>)
    returns (order: seq<nat>)
    requires Inv(g, c, finished) && Acyclic(g, rank)
    ensures Legal(g, c, finished, order)
    ensures AllIn(finished + SetOf(order), |g|)
    decreases |g| - |finished|
  {
    SizeBound(finished, |g|);
    if AllIn(finished, |g|) {
      order := [];
    } else {
      var u := SomeReady(g, rank, c, finished);
      FinishKeeps(g, c, finished, u);
      assert |finished + {u}| == |finished| + 1;
      hide Inv, Finish, Acyclic, AllIn;
      var rest := CanComplete(g, rank, Finish(g, c, u), finished + {u});
      order := [u] + rest;
      assert order[1..] == rest;
      assert finished + {u} + SetOf(rest) == finished + SetOf(order);
    }
  }

  // ---- Exactly the acyclic tasks can be completed ----

  /** Where `u` comes in a list. */
  function Position(order: seq<nat>, u: nat): (i: nat)
    requires u in order
    ensures i < |order| && order[i] == u && u !in order[..i]
  {
    if order[0] == u then 0
    else
      var i := 1 + Position(order[1..], u);
      assert order[..i] == [order[0]] + order[1..][..i - 1];
      i
  }

  lemma {:induction false} PositionAtMost(order: seq<nat>, k: nat)
    requires k < |order|
    ensures Position(order, order[k]) <= k
    decreases |order|
  {
    if order[0] != order[k] { PositionAtMost(order[1..], k - 1); }
  }

  lemma {:induction false} SetOfIs(order: seq<nat>)
    ensures forall u :: u in SetOf(order) <==> u in order
    decreases |order|
  {
    if order != [] {
      SetOfIs(order[1..]);
      assert order == [order[0]] + order[1..];
    }
  }

  /** A legal order of everything ranks the subtasks so that every edge goes up. */
  lemma OrderRanks(g: Graph, c: Counters, order: seq<nat>) returns (rank: seq<nat>)
    requires Inv(g, c, {}) && Legal(g, c, {}, order) && AllIn(SetOf(order), |g|)
    ensures Acyclic(g, rank)
  {
    SetOfIs(order);
    rank := seq(|g|, u requires 0 <= u < |g| => assert u in SetOf(order); Position(order, u));
    forall u, t | 0 <= u < |g| && t in g[u] && t < |g| ensures rank[u] < rank[t] {
      assert t in SetOf(order) && u in SetOf(order);
      var i := Position(order, t);
      PredecessorsFirst(g, c, {}, order, i);
      SetOfIs(order[..i]);
      var k :| 0 <= k < i && order[k] == u;
      PositionAtMost(order, k);
    }
  }

  /** From the initial counters a legal order of all subtasks exists exactly if the task is acyclic. */
  lemma CompletesExactly(g: Graph, c: Counters)
    requires Inv(g, c, {})
    ensures (exists order :: Legal(g, c, {}, order) && AllIn(SetOf(order), |g|)) <==> exists rank :: Acyclic(g, rank)
  {
    if order :| Legal(g, c, {}, order) && AllIn(SetOf(order), |g|) {
      var rank := OrderRanks(g, c, order);
    }
    if rank :| Acyclic(g, rank) {
      var order := CanComplete(g, rank, c, {});
      assert {} + SetOf(order) == SetOf(order);
    }
  }
}
