/** What the lease protocol promises over whole runs: any calls, by any workers, in any
    order, with any clock readings. */
module LeaseRuns {
  import opened Options
  import opened LeaseModel

  /** The state after the first t calls. */
  ghost function StateAt<O>(c: Config, s: Sched<O>, calls: seq<Timed<O>>, t: nat): (r: Sched<O>)
    requires t <= |calls|
    ensures |r.units| == |s.units|
  {
    if t == 0 then s else Step(c, StateAt(c, s, calls, t - 1), calls[t - 1]).0
  }

  ghost function ReplyAt<O>(c: Config, s: Sched<O>, calls: seq<Timed<O>>, t: nat): Reply
    requires t < |calls|
  {
    Step(c, StateAt(c, s, calls, t), calls[t]).1
  }

  lemma {:induction false} RunInv<O>(c: Config, s: Sched<O>, calls: seq<Timed<O>>, t: nat)
    requires Inv(c, s) && t <= |calls|
    ensures Inv(c, StateAt(c, s, calls, t))
  {
    if t == 0 {
    } else {
      RunInv(c, s, calls, t - 1);
      StepInv(c, StateAt(c, s, calls, t - 1), calls[t - 1]);
    }
  }

  // ----- exactly once -----

  /** Call t is a completion under the lease that unit k is out on. */
  ghost predicate Finishes<O>(c: Config, s: Sched<O>, calls: seq<Timed<O>>, t: nat, k: nat)
    requires k < |s.units|
  {
    && t < |calls|
    && calls[t].call.Complete?
    && var x := StateAt(c, s, calls, t).units[k];
       x.Leased? && x.id == calls[t].call.id
  }

  /** A completion answers True exactly when it finishes a unit, and then only one. */
  lemma AcceptedFinishesOne<O>(c: Config, s: Sched<O>, calls: seq<Timed<O>>, t: nat)
    requires Inv(c, s) && t < |calls|
    ensures ReplyAt(c, s, calls, t) == Accepted(true)
      <==> exists k: nat :: k < |s.units| && Finishes(c, s, calls, t, k)
    ensures forall k: nat, l: nat ::
      k < |s.units| && l < |s.units| && Finishes(c, s, calls, t, k) && Finishes(c, s, calls, t, l) ==> k == l
  {
    RunInv(c, s, calls, t);
    var u := StateAt(c, s, calls, t).units;
    if calls[t].call.Complete? && Live(u, calls[t].call.id) {
      var i :| 0 <= i < |u| && u[i].Leased? && u[i].id == calls[t].call.id;
      assert Finishes(c, s, calls, t, i);
    }
  }

  /** One call finishes exactly the units whose current lease it completes. */
  lemma DoneIffFinished<O>(c: Config, s: Sched<O>, calls: seq<Timed<O>>, t: nat, k: nat)
    requires t < |calls| && k < |s.units|
    ensures Finishes(c, s, calls, t, k) ==> !StateAt(c, s, calls, t).units[k].Done?
    ensures StateAt(c, s, calls, t + 1).units[k].Done?
      <==> StateAt(c, s, calls, t).units[k].Done? || Finishes(c, s, calls, t, k)
  {
  }

  /** A finished unit keeps its output whatever happens later. */
  lemma {:induction false} DoneStays<O>(c: Config, s: Sched<O>, calls: seq<Timed<O>>, t: nat, t': nat, k: nat)
    requires t <= t' <= |calls| && k < |s.units|
    requires StateAt(c, s, calls, t).units[k].Done?
    ensures StateAt(c, s, calls, t').units[k] == StateAt(c, s, calls, t).units[k]
  {
    if t == t' {
    } else {
      DoneStays(c, s, calls, t, t' - 1, k);
    }
  }

  /** The only way a unit becomes finished is a completion under its current lease. */
  lemma {:induction false} DoneComesFrom<O>(c: Config, s: Sched<O>, calls: seq<Timed<O>>, t: nat, k: nat)
    requires t <= |calls| && k < |s.units| && !s.units[k].Done?
    ensures StateAt(c, s, calls, t).units[k].Done?
      ==> exists t0: nat :: t0 < t && Finishes(c, s, calls, t0, k)
    decreases t
  {
    if t == 0 {
    } else if StateAt(c, s, calls, t).units[k].Done? {
      DoneIffFinished(c, s, calls, t - 1, k);
      hide StateAt, Finishes;
      if StateAt(c, s, calls, t - 1).units[k].Done? {
        DoneComesFrom(c, s, calls, t - 1, k);
      }
    }
  }

  /** Exactly once: in any run from the start, a unit is finished by at most one call; it is
      finished at the end iff some call finished it; and the output kept is that call's. */
  lemma ExactlyOnce<O>(c: Config, n: nat, calls: seq<Timed<O>>, k: nat)
    requires k < n
    ensures var s := Fresh<O>(n);
      && (forall t: nat, t': nat :: Finishes(c, s, calls, t, k) && Finishes(c, s, calls, t', k) ==> t == t')
      && (StateAt(c, s, calls, |calls|).units[k].Done? <==> exists t: nat :: Finishes(c, s, calls, t, k))
      && (forall t: nat :: Finishes(c, s, calls, t, k)
            ==> StateAt(c, s, calls, |calls|).units[k] == Done(calls[t].call.output))
  {
    var s := Fresh<O>(n);
    forall t: nat | Finishes(c, s, calls, t, k)
      ensures StateAt(c, s, calls, |calls|).units[k] == Done(calls[t].call.output)
      ensures forall t': nat :: t < t' ==> !Finishes(c, s, calls, t', k)
    {
      FinishedForGood(c, s, calls, t, k);
    }
    DoneComesFrom(c, s, calls, |calls|, k);
  }

  lemma FinishedForGood<O>(c: Config, s: Sched<O>, calls: seq<Timed<O>>, t: nat, k: nat)
    requires k < |s.units| && Finishes(c, s, calls, t, k)
    ensures forall t' :: t < t' <= |calls| ==> StateAt(c, s, calls, t').units[k] == Done(calls[t].call.output)
    ensures forall t': nat :: t < t' ==> !Finishes(c, s, calls, t', k)
  {
    assert StateAt(c, s, calls, t + 1).units[k] == Done(calls[t].call.output);
    forall t' | t < t' <= |calls|
      ensures StateAt(c, s, calls, t').units[k] == Done(calls[t].call.output)
    {
      DoneStays(c, s, calls, t + 1, t', k);
    }
  }

  ghost function DoneUnits<O>(u: seq<Status<O>>): set<nat> {
    set i: nat | i < |u| && u[i].Done?
  }

  ghost function AcceptedCalls<O>(c: Config, s: Sched<O>, calls: seq<Timed<O>>, t: nat): nat
    requires t <= |calls|
  {
    if t == 0 then 0
    else AcceptedCalls(c, s, calls, t - 1) + if ReplyAt(c, s, calls, t - 1) == Accepted(true) then 1 else 0
  }

  lemma OneMoreDone<O>(u: seq<Status<O>>, v: seq<Status<O>>, k: nat)
    requires |u| == |v| && k < |u| && !u[k].Done? && v[k].Done?
    requires forall i :: 0 <= i < |u| && i != k ==> (u[i].Done? <==> v[i].Done?)
    ensures |DoneUnits(v)| == |DoneUnits(u)| + 1
  {
    assert DoneUnits(v) == DoneUnits(u) + {k};
  }

  /** Which units one call finishes: the one whose completion it accepts, if any. */
  lemma StepFinishes<O>(c: Config, s: Sched<O>, calls: seq<Timed<O>>, t: nat)
    requires Inv(c, s) && t < |calls|
    ensures |DoneUnits(StateAt(c, s, calls, t + 1).units)|
         == |DoneUnits(StateAt(c, s, calls, t).units)| + if ReplyAt(c, s, calls, t) == Accepted(true) then 1 else 0
  {
    AcceptedFinishesOne(c, s, calls, t);
    var u, v := StateAt(c, s, calls, t).units, StateAt(c, s, calls, t + 1).units;
    forall i: nat | i < |u|
      ensures Finishes(c, s, calls, t, i) ==> !u[i].Done? && v[i].Done?
      ensures !Finishes(c, s, calls, t, i) ==> (u[i].Done? <==> v[i].Done?)
    {
      DoneIffFinished(c, s, calls, t, i);
    }
    hide StateAt, ReplyAt, Finishes;
    if ReplyAt(c, s, calls, t) == Accepted(true) {
      var k: nat :| k < |u| && Finishes(c, s, calls, t, k);
      OneMoreDone(u, v, k);
    } else {
      assert DoneUnits(v) == DoneUnits(u);
    }
  }

  /** Conservation: the completions answered True are as many as the units finished. */
  lemma {:induction false} AcceptedCount<O>(c: Config, s: Sched<O>, calls: seq<Timed<O>>, t: nat)
    requires Inv(c, s) && t <= |calls|
    ensures |DoneUnits(StateAt(c, s, calls, t).units)|
         == |DoneUnits(s.units)| + AcceptedCalls(c, s, calls, t)
  {
    hide DoneUnits;
    if t == 0 {
    } else {
      AcceptedCount(c, s, calls, t - 1);
      StepFinishes(c, s, calls, t - 1);
    }
  }

  // ----- dead lease ids -----

  /** A lease id that has been handed out and is at some time no longer live never comes back. */
  lemma {:induction false} DeadStaysDead<O>(c: Config, s: Sched<O>, calls: seq<Timed<O>>, t: nat, t': nat, id: nat)
    requires t <= t' <= |calls|
    requires id <= StateAt(c, s, calls, t).issued && !Live(StateAt(c, s, calls, t).units, id)
    ensures id <= StateAt(c, s, calls, t').issued && !Live(StateAt(c, s, calls, t').units, id)
  {
    if t == t' {
    } else {
      DeadStaysDead(c, s, calls, t, t' - 1, id);
      DeadStep(c, StateAt(c, s, calls, t' - 1), calls[t' - 1], id);
    }
  }

  lemma DeadStep<O>(c: Config, s: Sched<O>, call: Timed<O>, id: nat)
    requires id <= s.issued && !Live(s.units, id)
    ensures !Live(Step(c, s, call).0.units, id) && id <= Step(c, s, call).0.issued
  {
  }

  /** Once a lease id has been accepted or reclaimed, every later completion under it is refused. */
  lemma LateResultDropped<O>(c: Config, n: nat, calls: seq<Timed<O>>, t: nat, t': nat, id: nat)
    requires t < t' < |calls| && calls[t'].call.Complete? && calls[t'].call.id == id
    requires Live(StateAt(c, Fresh<O>(n), calls, t).units, id)
    requires !Live(StateAt(c, Fresh<O>(n), calls, t + 1).units, id)
    ensures ReplyAt(c, Fresh<O>(n), calls, t') == Accepted(false)
    ensures StateAt(c, Fresh<O>(n), calls, t' + 1) == StateAt(c, Fresh<O>(n), calls, t')
  {
    var s := Fresh<O>(n);
    FreshInv<O>(c, n);
    RunInv(c, s, calls, t);
    RunInv(c, s, calls, t + 1);
    DeadStaysDead(c, s, calls, t + 1, t', id);
    var u := StateAt(c, s, calls, t').units;
    assert StateAt(c, s, calls, t' + 1).units == u;
  }

  // ----- results -----

  /** The outputs of the finished units, in index order. */
  function Results<O>(u: seq<Status<O>>): seq<O> {
    if |u| == 0 then []
    else Results(u[..|u| - 1]) + if u[|u| - 1].Done? then [u[|u| - 1].output] else []
  }

  lemma {:induction false} AllResults<O>(u: seq<Status<O>>)
    requires forall i :: 0 <= i < |u| ==> u[i].Done?
    ensures |Results(u)| == |u| && forall i :: 0 <= i < |u| ==> Results(u)[i] == u[i].output
  {
    if |u| == 0 {
    } else {
      AllResults(u[..|u| - 1]);
    }
  }

  lemma DrainedMeansFinished<O>(c: Config, s: Sched<O>, calls: seq<Timed<O>>, t: nat)
    requires t < |calls| && ReplyAt(c, s, calls, t) == IsDrained(true)
    ensures var u, v := StateAt(c, s, calls, t).units, StateAt(c, s, calls, t + 1).units;
      forall i :: 0 <= i < |s.units| ==> u[i].Done? && v[i].Done?
  {
  }

  lemma FinishedBefore<O>(c: Config, n: nat, calls: seq<Timed<O>>, t: nat, i: nat) returns (t0: nat)
    requires t < |calls| && i < n && StateAt(c, Fresh<O>(n), calls, t).units[i].Done?
    ensures Finishes(c, Fresh<O>(n), calls, t0, i) && t0 < t
    ensures StateAt(c, Fresh<O>(n), calls, t + 1).units[i] == Done(calls[t0].call.output)
  {
    var s := Fresh<O>(n);
    DoneComesFrom(c, s, calls, t, i);
    t0 :| t0 < t && Finishes(c, s, calls, t0, i);
    FinishedForGood(c, s, calls, t0, i);
  }

  /** An accepted completion of unit i before call t carried this output. */
  ghost predicate AcceptedBefore<O>(c: Config, s: Sched<O>, calls: seq<Timed<O>>, t: nat, i: nat, output: O)
    requires i < |s.units|
  {
    exists t0: nat :: Finishes(c, s, calls, t0, i) && t0 < t && calls[t0].call.output == output
  }

  /** When the scheduler says it is drained, entry i of the results is the output of the one
      accepted completion of unit i, for every unit. */
  lemma DrainedResults<O>(c: Config, n: nat, calls: seq<Timed<O>>, t: nat)
    requires t < |calls| && ReplyAt(c, Fresh<O>(n), calls, t) == IsDrained(true)
    ensures var s := Fresh<O>(n);
      var r := Results(StateAt(c, s, calls, t + 1).units);
      |r| == n && forall i :: 0 <= i < n ==> AcceptedBefore(c, s, calls, t, i, r[i])
  {
    var s := Fresh<O>(n);
    var u := StateAt(c, s, calls, t + 1).units;
    DrainedMeansFinished(c, s, calls, t);
    AllResults(u);
    hide ReplyAt, StateAt, Results;
    forall i | 0 <= i < n
      ensures AcceptedBefore(c, s, calls, t, i, Results(u)[i])
    {
      var t0 := FinishedBefore(c, n, calls, t, i);
    }
  }

  // ----- what one pull gets -----

  function Least(a: int, b: int): int {
    if a < b then a else b
  }

  /** A pull of n returns max(0, min(n, room under the limiter, waiting units)) leases, each under
      a fresh id, for a unit that was waiting, due one duration from now. */
  lemma PullGets<O>(c: Config, s: Sched<O>, worker: string, n: int, now: int)
    ensures var (s', reply) := Step(c, s, At(now, Lease(worker, n)));
      var u := Reclaim(s.units, now);
      var g := reply.grants;
      var wanted := Least(n, Least(c.limit - |Held(u, worker)|, |AllWaiting(u)|));
      && |g| == (if wanted < 0 then 0 else wanted)
      && s'.issued == s.issued + |g|
      && forall j :: 0 <= j < |g| ==>
           && g[j].index < |u| && u[g[j].index].Pending? && g[j].id == s.issued + 1 + j
           && s'.units[g[j].index] == Leased(g[j].id, worker, now + c.ttl)
  {
    var u := Reclaim(s.units, now);
    var m := Amount(c, u, worker, n);
    forall j | 0 <= j < m
      ensures u[AllWaiting(u)[j]].Pending?
    {
      WaitingRank(u, j);
    }
    forall j | 0 <= j < m
      ensures Lend(c, u, s.issued, worker, m, now)[AllWaiting(u)[j]] == Leased(s.issued + 1 + j, worker, now + c.ttl)
    {
      LentUnit(c, u, s.issued, worker, m, now, j);
    }
  }

  /** The units a pull returns are the smallest waiting ones, in ascending order: whatever still
      waits afterwards has a larger index than every unit returned, and nothing else moved. */
  lemma PullTakesSmallest<O>(c: Config, s: Sched<O>, worker: string, n: int, now: int)
    ensures var (s', reply) := Step(c, s, At(now, Lease(worker, n)));
      var u := Reclaim(s.units, now);
      var g := reply.grants;
      && (forall i, j :: 0 <= i < j < |g| ==> g[i].index < g[j].index)
      && (forall i, j :: 0 <= i < |u| && s'.units[i].Pending? && 0 <= j < |g| ==> g[j].index < i)
      && (forall i: nat :: i < |u| && (forall j :: 0 <= j < |g| ==> g[j].index != i) ==> s'.units[i] == u[i])
  {
    var u := Reclaim(s.units, now);
    var m := Amount(c, u, worker, n);
    var v := Lend(c, u, s.issued, worker, m, now);
    var g := Step(c, s, At(now, Lease(worker, n))).1.grants;
    WaitingList(u, |u|);
    forall i, j | 0 <= i < |v| && v[i].Pending? && 0 <= j < m
      ensures AllWaiting(u)[j] < i
    {
      RankLocates(u, i, |u|);
    }
    forall i: nat | i < |u| && u[i].Pending? && Rank(u, i) < m
      ensures exists j :: 0 <= j < |g| && g[j].index == i
    {
      RankLocates(u, i, |u|);
      assert g[Rank(u, i)].index == i;
    }
  }

  // ----- deadlines -----

  /** Nothing in these calls finishes lease id. */
  predicate NotCompleted<O>(calls: seq<Timed<O>>, id: nat) {
    forall t :: 0 <= t < |calls| && calls[t].call.Complete? ==> calls[t].call.id != id
  }

  /** A lease issued or beaten at time t, so due no earlier than t + ttl, survives every call
      made from t up to t + ttl, and stays due no earlier. */
  lemma {:induction false} KeptAlive<O>(c: Config, s: Sched<O>, calls: seq<Timed<O>>, k: nat, from: int, m: nat)
    requires m <= |calls| && k < |s.units| && s.units[k].Leased? && s.units[k].deadline >= from + c.ttl
    requires NotCompleted(calls, s.units[k].id)
    requires forall t :: 0 <= t < |calls| ==> from <= calls[t].now <= from + c.ttl
    ensures var x := StateAt(c, s, calls, m).units[k];
      x.Leased? && x.id == s.units[k].id && x.worker == s.units[k].worker && x.deadline >= from + c.ttl
  {
    if m == 0 {
    } else {
      KeptAlive(c, s, calls, k, from, m - 1);
      assert calls[m - 1].call.Complete? ==> calls[m - 1].call.id != s.units[k].id;
    }
  }

  /** A heartbeat is for this unit: it is leased to the worker, and under the id named, if one is. */
  predicate IsFor<O>(x: Status<O>, worker: string, which: Option<nat>) {
    x.Leased? && x.worker == worker && (which == None || which == Some(x.id))
  }

  /** A heartbeat puts every unit it is for one lifetime off, under the same lease, and does nothing else. */
  lemma HeartbeatExtends<O>(c: Config, s: Sched<O>, worker: string, which: Option<nat>, now: int)
    ensures var s' := Step(c, s, At(now, Heartbeat(worker, which))).0;
      && s'.issued == s.issued && |s'.units| == |s.units|
      && forall i :: 0 <= i < |s.units| ==>
           if IsFor(s.units[i], worker, which)
           then s'.units[i] == Leased(s.units[i].id, s.units[i].worker, now + c.ttl)
           else s'.units[i] == s.units[i]
  {
  }

  /** The calls after call t, up to the m-th, come within one lifetime of it and do not complete this lease. */
  predicate Undisturbed<O>(c: Config, calls: seq<Timed<O>>, t: nat, m: nat, id: nat)
    requires t < m <= |calls|
  {
    forall i :: t < i < m ==>
      && calls[t].now <= calls[i].now <= calls[t].now + c.ttl
      && (calls[i].call.Complete? ==> calls[i].call.id != id)
  }

  /** What one call leaves of a lease that is due late enough and is not completed by it. */
  lemma LateEnough<O>(c: Config, s: Sched<O>, call: Timed<O>, k: nat, from: int)
    requires k < |s.units| && s.units[k].Leased? && s.units[k].deadline >= from + c.ttl
    requires from <= call.now <= from + c.ttl
    requires call.call.Complete? ==> call.call.id != s.units[k].id
    ensures var x := Step(c, s, call).0.units[k];
      x.Leased? && x.id == s.units[k].id && x.worker == s.units[k].worker && x.deadline >= from + c.ttl
  {
  }

  /** A lease beaten by its holder at call t, however close its deadline was before, survives every later call
      up to one lifetime after, by whomever, that does not complete it. */
  lemma {:induction false} BeatenSurvives<O>(c: Config, s: Sched<O>, calls: seq<Timed<O>>, t: nat, m: nat, k: nat)
    requires t < m <= |calls| && k < |s.units| && calls[t].call.Heartbeat?
    requires var x := StateAt(c, s, calls, t).units[k];
      IsFor(x, calls[t].call.worker, calls[t].call.which) && Undisturbed(c, calls, t, m, x.id)
    ensures var x, y := StateAt(c, s, calls, t).units[k], StateAt(c, s, calls, m).units[k];
      y.Leased? && y.id == x.id && y.worker == x.worker && y.deadline >= calls[t].now + c.ttl
  {
    if m == t + 1 {
      HeartbeatExtends(c, StateAt(c, s, calls, t), calls[t].call.worker, calls[t].call.which, calls[t].now);
      hide Step;
    } else {
      hide Step, IsFor;
      BeatenSurvives(c, s, calls, t, m - 1, k);
      LateEnough(c, StateAt(c, s, calls, m - 1), calls[m - 1], k, calls[t].now);
    }
  }

  /** And it is due exactly one lifetime after the beat, if nothing else beats it: the holder that then falls
      silent loses it to the first reclaiming call past that time. */
  lemma {:induction false} BeatenThenSilent<O>(c: Config, s: Sched<O>, calls: seq<Timed<O>>, k: nat, worker: string,
      which: Option<nat>, now: int)
    requires Inv(c, s) && k < |s.units| && IsFor(s.units[k], worker, which)
    requires NotCompleted(calls, s.units[k].id) && NotBeaten(calls, worker)
    ensures var s' := Step(c, s, At(now, Heartbeat(worker, which))).0;
      && (StateAt(c, s', calls, |calls|).units[k] == s'.units[k] <==> ReclaimsInTime(calls, |calls|, now + c.ttl))
      && (StateAt(c, s', calls, |calls|).units[k] != s'.units[k] ==>
            !Live(StateAt(c, s', calls, |calls|).units, s.units[k].id))
  {
    var beat := At(now, Heartbeat(worker, which));
    HeartbeatExtends(c, s, worker, which, now);
    StepInv(c, s, beat);
    var s' := Step(c, s, beat).0;
    hide Step, Inv, StateAt, ReclaimsInTime;
    LostAfterDeadline(c, s', calls, k, |calls|);
  }

  predicate NotBeaten<O>(calls: seq<Timed<O>>, worker: string) {
    forall t :: 0 <= t < |calls| && calls[t].call.Heartbeat? ==> calls[t].call.worker != worker
  }

  /** Every one of the first m calls that reclaims came no later than the deadline. */
  ghost predicate ReclaimsInTime<O>(calls: seq<Timed<O>>, m: nat, deadline: int)
    requires m <= |calls|
  {
    forall t :: 0 <= t < m && (calls[t].call.Lease? || calls[t].call.Drained?) ==> calls[t].now <= deadline
  }

  /** A silent, uncompleted lease is lost to the first lease or drained call after its deadline,
      and to no call before: its status changes in a run iff some such call came. */
  lemma {:induction false} LostAfterDeadline<O>(c: Config, s: Sched<O>, calls: seq<Timed<O>>, k: nat, m: nat)
    requires Inv(c, s) && m <= |calls| && k < |s.units| && s.units[k].Leased?
    requires NotCompleted(calls, s.units[k].id) && NotBeaten(calls, s.units[k].worker)
    ensures StateAt(c, s, calls, m).units[k] == s.units[k] <==> ReclaimsInTime(calls, m, s.units[k].deadline)
    ensures StateAt(c, s, calls, m).units[k] != s.units[k]
      ==> !Live(StateAt(c, s, calls, m).units, s.units[k].id)
  {
    if m == 0 {
    } else {
      LostAfterDeadline(c, s, calls, k, m - 1);
      var a := StateAt(c, s, calls, m - 1);
      assert StateAt(c, s, calls, m) == Step(c, a, calls[m - 1]).0;
      RunInv(c, s, calls, m - 1);
      IssuedGrows(c, s, calls, m - 1);
      assert s.units[k].id <= s.issued;
      var call, due := calls[m - 1], s.units[k].deadline;
      assert ReclaimsInTime(calls, m, due)
        <==> ReclaimsInTime(calls, m - 1, due) && ((call.call.Lease? || call.call.Drained?) ==> call.now <= due);
      hide StateAt, Step, Inv, ReclaimsInTime;
      if a.units[k] == s.units[k] {
        LostStep(c, a, calls[m - 1], k);
      } else {
        DeadStep(c, a, calls[m - 1], s.units[k].id);
      }
    }
  }

  lemma {:induction false} IssuedGrows<O>(c: Config, s: Sched<O>, calls: seq<Timed<O>>, m: nat)
    requires m <= |calls|
    ensures s.issued <= StateAt(c, s, calls, m).issued
  {
    if m == 0 {
    } else {
      IssuedGrows(c, s, calls, m - 1);
    }
  }

  lemma LostStep<O>(c: Config, a: Sched<O>, call: Timed<O>, k: nat)
    requires Inv(c, a) && k < |a.units| && a.units[k].Leased?
    requires call.call.Complete? ==> call.call.id != a.units[k].id
    requires call.call.Heartbeat? ==> call.call.worker != a.units[k].worker
    ensures var b := Step(c, a, call).0.units;
      if (call.call.Lease? || call.call.Drained?) && call.now > a.units[k].deadline
      then b[k] != a.units[k] && !Live(b, a.units[k].id)
      else b[k] == a.units[k]
  {
  }
}
