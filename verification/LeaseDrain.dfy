/** The loop every consumer of the scheduler runs: while it is not drained, pull up to k units and
    complete each of them. It stops, and after exactly as many rounds as it must. */
module LeaseDrain {
  import opened Options
  import opened Orders
  import opened LeaseModel
  import opened LeaseRuns
  import opened LeaseScheduler

  /** Rounds of q needed for r. */
  function CeilDiv(r: nat, q: nat): nat
    requires q > 0
  {
    if r == 0 then 0 else 1 + CeilDiv(if r < q then 0 else r - q, q)
  }

  /** ... which is r / q rounded up: the one number of rounds that is enough and not too many. */
  lemma {:induction false} CeilDivMeaning(r: nat, q: nat)
    requires q > 0
    ensures r <= CeilDiv(r, q) * q < r + q
  {
    if r < q {
    } else {
      CeilDivMeaning(r - q, q);
    }
  }

  ghost predicate NoLeases<O>(u: seq<Status<O>>) {
    forall i :: 0 <= i < |u| ==> !u[i].Leased?
  }

  function Unfinished<O>(u: seq<Status<O>>): nat {
    if |u| == 0 then 0 else Unfinished(u[..|u| - 1]) + if u[|u| - 1].Done? then 0 else 1
  }

  /** With no lease out, what is unfinished is exactly what waits. */
  lemma {:induction false} UnfinishedWait<O>(u: seq<Status<O>>, k: nat)
    requires NoLeases(u) && k <= |u|
    ensures |Waiting(u, k)| == Unfinished(u[..k])
  {
    if k == 0 {
    } else {
      UnfinishedWait(u, k - 1);
      assert u[..k][..k - 1] == u[..k - 1];
    }
  }

  lemma {:induction false} ReclaimUnfinished<O>(u: seq<Status<O>>, now: int, k: nat)
    requires k <= |u|
    ensures Unfinished(LeaseModel.Reclaim(u, now)[..k]) == Unfinished(u[..k])
  {
    if k == 0 {
    } else {
      var v := LeaseModel.Reclaim(u, now);
      ReclaimUnfinished(u, now, k - 1);
      assert u[..k][..k - 1] == u[..k - 1] && v[..k][..k - 1] == v[..k - 1];
    }
  }

  lemma SomeWait<O>(u: seq<Status<O>>)
    requires NoLeases(u)
    ensures |AllWaiting(u)| == 0 <==> forall i :: 0 <= i < |u| ==> u[i].Done?
  {
    WaitingList(u, |u|);
    if AllWaiting(u) != [] {
      WaitingRank(u, 0);
    } else {
      forall i | 0 <= i < |u| ensures u[i].Done? {
        assert i !in AllWaiting(u);
      }
    }
  }

  lemma NobodyHolds<O>(u: seq<Status<O>>, worker: string)
    requires NoLeases(u)
    ensures Held(u, worker) == {}
  {
  }

  /** u with the first m waiting units lent out, the first j of them already finished. */
  ghost predicate Between<W, O>(c: Config, u: seq<Status<O>>, v: seq<Status<O>>, issued: nat, worker: string,
    m: nat, now: int, j: nat, work: seq<W>, run: W -> O)
  {
    && j <= m <= |AllWaiting(u)| && |v| == |u| == |work|
    && (forall a :: 0 <= a < j ==> v[AllWaiting(u)[a]] == Done(run(work[AllWaiting(u)[a]])))
    && (forall a :: j <= a < m ==> v[AllWaiting(u)[a]] == Leased(issued + 1 + a, worker, now + c.ttl))
    && (forall i: nat :: i < |u| && i !in AllWaiting(u)[..m] ==> v[i] == u[i])
  }

  lemma LentBetween<W, O>(c: Config, u: seq<Status<O>>, issued: nat, worker: string, m: nat, now: int, work: seq<W>,
      run: W -> O)
    requires m <= |AllWaiting(u)| && |work| == |u|
    ensures Between(c, u, Lend(c, u, issued, worker, m, now), issued, worker, m, now, 0, work, run)
  {
    forall a | 0 <= a < m
      ensures Lend(c, u, issued, worker, m, now)[AllWaiting(u)[a]] == Leased(issued + 1 + a, worker, now + c.ttl)
    {
      LentUnit(c, u, issued, worker, m, now, a);
    }
    forall i: nat | i < |u| && u[i].Pending? && Rank(u, i) < m
      ensures i in AllWaiting(u)[..m]
    {
      RankLocates(u, i, |u|);
      assert AllWaiting(u)[..m][Rank(u, i)] == i;
    }
  }

  lemma BetweenNext<W, O>(c: Config, u: seq<Status<O>>, v: seq<Status<O>>, v': seq<Status<O>>, issued: nat,
    worker: string, m: nat, now: int, j: nat, work: seq<W>, run: W -> O)
    requires NoLeases(u) && Between(c, u, v, issued, worker, m, now, j, work, run) && j < m
    requires |v'| == |v|
    requires forall i :: 0 <= i < |v| ==> v'[i] == Finish(v[i], issued + 1 + j, run(work[AllWaiting(u)[j]]))
    ensures Between(c, u, v', issued, worker, m, now, j + 1, work, run)
  {
  }

  /** What one round does: q more units finished, or all if fewer wait, each with the output of
      running it; nothing else moves and no lease stays out. */
  ghost predicate AfterRound<W, O>(u: seq<Status<O>>, v: seq<Status<O>>, q: int, work: seq<W>, run: W -> O) {
    && |v| == |u| == |work| && NoLeases(v)
    && |AllWaiting(v)| == |AllWaiting(u)| - (if q < 0 then 0 else Least(q, |AllWaiting(u)|))
    && forall i :: 0 <= i < |u| ==> v[i] == u[i] || (u[i].Pending? && v[i] == Done(run(work[i])))
  }

  lemma RoundDone<W, O>(c: Config, u: seq<Status<O>>, v: seq<Status<O>>, issued: nat, worker: string, m: nat,
    now: int, q: int, work: seq<W>, run: W -> O)
    requires NoLeases(u) && Between(c, u, v, issued, worker, m, now, m, work, run)
    requires m == if q < 0 then 0 else Least(q, |AllWaiting(u)|)
    ensures AfterRound(u, v, q, work, run)
  {
    var all := AllWaiting(u);
    WaitingList(u, |u|);
    LentBetween(c, u, issued, worker, m, now, work, run);
    forall i | 0 <= i < |u|
      ensures v[i] == u[i] || (u[i].Pending? && v[i] == Done(run(work[i])))
      ensures v[i].Pending? <==> Lend(c, u, issued, worker, m, now)[i].Pending?
    {
      if i in all[..m] {
        var a :| 0 <= a < m && all[a] == i;
        WaitingRank(u, a);
      }
    }
    SameWaiting(v, Lend(c, u, issued, worker, m, now), |u|);
    LendWaiting(c, u, issued, worker, m, now);
  }

  /** Everything is finished: what was finished before keeps its output, the rest was run. */
  ghost predicate AllRun<W, O>(u: seq<Status<O>>, v: seq<Status<O>>, work: seq<W>, run: W -> O) {
    && |v| == |u| == |work|
    && forall i :: 0 <= i < |u| ==> v[i] == if u[i].Done? then u[i] else Done(run(work[i]))
  }

  /** Everything is finished as in AllRun, or still waits. */
  ghost predicate OnTheWay<W, O>(u: seq<Status<O>>, v: seq<Status<O>>, work: seq<W>, run: W -> O) {
    && |v| == |u| == |work| && NoLeases(v)
    && forall i :: 0 <= i < |u| ==>
         if u[i].Done? then v[i] == u[i] else v[i].Pending? || v[i] == Done(run(work[i]))
  }

  /** Every lease still out is overdue. */
  ghost predicate AllOverdue<O>(u: seq<Status<O>>, now: int) {
    forall i :: 0 <= i < |u| && u[i].Leased? ==> now > u[i].deadline
  }

  lemma Start<W, O>(u: seq<Status<O>>, now: int, work: seq<W>, run: W -> O)
    requires AllOverdue(u, now) && |work| == |u|
    ensures var v := LeaseModel.Reclaim(u, now);
      OnTheWay(u, v, work, run) && |AllWaiting(v)| == Unfinished(u)
  {
    var v := LeaseModel.Reclaim(u, now);
    ReclaimUnfinished(u, now, |u|);
    assert u[..|u|] == u && v[..|u|] == v;
    UnfinishedWait(v, |u|);
  }

  lemma Onwards<W, O>(u: seq<Status<O>>, v: seq<Status<O>>, v': seq<Status<O>>, q: int, now: int, work: seq<W>,
      run: W -> O)
    requires OnTheWay(u, v, work, run) && AfterRound(v, v', q, work, run)
    ensures LeaseModel.Reclaim(v', now) == v' && OnTheWay(u, v', work, run)
  {
  }

  lemma Arrived<W, O>(u: seq<Status<O>>, v: seq<Status<O>>, work: seq<W>, run: W -> O)
    requires OnTheWay(u, v, work, run)
    ensures NoLeases(v) && |v| == |work|
    ensures |AllWaiting(v)| == 0 <==> forall i :: 0 <= i < |v| ==> v[i].Done?
    ensures |AllWaiting(v)| == 0 ==> AllRun(u, v, work, run)
  {
    SomeWait(v);
  }

  /** Pulls and completes until drained. If every lease still out has expired at the first clock
      reading, this takes exactly ceil(r / min(k, limit)) rounds for r unfinished units, whatever
      the clock reads afterwards, and every unit ends finished. */
  method DrainBy<W, O>(s: Scheduler<W, O>, worker: string, k: int, clock: nat -> int, run: W -> O) returns (rounds: nat)
    requires s.Valid() && k >= 1 && s.limit >= 1
    requires AllOverdue(s.model.units, clock(0))
    modifies s
    ensures s.Valid()
    ensures rounds == CeilDiv(Unfinished(old(s.model.units)), Least(k, s.limit))
    ensures AllRun(old(s.model.units), s.model.units, s.work, run)
  {
    assert |s.model.units| == |s.work|;
    hide s.Valid, AllWaiting, Unfinished, OnTheWay, AllRun, AllOverdue, AfterRound, LeaseModel.Reclaim;
    ghost var u0 := s.model.units;
    ghost var q := Least(k, s.limit);
    Start(u0, clock(0), s.work, run);
    var reading := 1;
    rounds := 0;
    var drained := s.Drained(clock(0));
    Arrived(u0, s.model.units, s.work, run);
    while !drained
      invariant s.Valid() && OnTheWay(u0, s.model.units, s.work, run)
      invariant drained <==> |AllWaiting(s.model.units)| == 0
      invariant rounds + CeilDiv(|AllWaiting(s.model.units)|, q) == CeilDiv(Unfinished(u0), q)
      decreases |AllWaiting(s.model.units)|
    {
      ghost var v := s.model.units;
      Round(s, worker, k, clock(reading), run);
      Onwards(u0, v, s.model.units, q, clock(reading + 1), s.work, run);
      FewerWait(v, s.model.units, q, s.work, run);
      drained := s.Drained(clock(reading + 1));
      Arrived(u0, s.model.units, s.work, run);
      reading := reading + 2;
      rounds := rounds + 1;
    }
    Arrived(u0, s.model.units, s.work, run);
  }

  lemma FewerWait<W, O>(u: seq<Status<O>>, v: seq<Status<O>>, q: nat, work: seq<W>, run: W -> O)
    requires AfterRound(u, v, q, work, run) && q > 0 && |AllWaiting(u)| > 0
    ensures |AllWaiting(v)| < |AllWaiting(u)|
    ensures 1 + CeilDiv(|AllWaiting(v)|, q) == CeilDiv(|AllWaiting(u)|, q)
  {
  }

  /** One round: pull up to k, complete each. */
  method Round<W, O>(s: Scheduler<W, O>, worker: string, k: int, now: int, run: W -> O)
    requires s.Valid() && NoLeases(s.model.units) && |s.model.units| == |s.work|
    modifies s
    ensures s.Valid() && AfterRound(old(s.model.units), s.model.units, Least(k, s.limit), s.work, run)
  {
    hide s.Valid, Waiting, Between, AfterRound, Held;
    ghost var c, u, issued := s.Conf(), s.model.units, s.model.issued;
    assert LeaseModel.Reclaim(u, now) == u;
    NobodyHolds(u, worker);
    ghost var m := Amount(c, u, worker, k);
    LentBetween(c, u, issued, worker, m, now, s.work, run);
    var got := s.Lease(worker, k, now);
    assert Grants(got) == seq(m, j requires 0 <= j < m => Grant(issued + 1 + j, AllWaiting(u)[j]));
    var j := 0;
    while j < |got|
      invariant 0 <= j <= |got| == m && s.Valid()
      invariant Between(c, u, s.model.units, issued, worker, m, now, j, s.work, run)
    {
      var h := got[j];
      assert Grants(got)[j] == Grant(h.leaseId, h.index);
      ghost var v := s.model.units;
      var ok := s.Complete(h.leaseId, run(h.wu), now);
      BetweenNext(c, u, v, s.model.units, issued, worker, m, now, j, s.work, run);
      j := j + 1;
    }
    RoundDone(c, u, s.model.units, issued, worker, m, now, Least(k, s.limit), s.work, run);
  }
}
