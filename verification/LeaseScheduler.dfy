/** tools/lease_scheduler.py: the scheduler object with the fields the source keeps, proved to
    implement the status machine of LeaseModel call by call. */
module LeaseScheduler {
  import opened Options
  import opened Orders
  import opened LeaseModel
  import opened LeaseRuns

  datatype Record<W> = Record(index: nat, wu: W, worker: string, deadline: int)
  datatype Handout<W> = Handout(leaseId: nat, index: nat, wu: W)

  /** The five fields of the source, as values. */
  datatype Fields<W, O> = Fields(
    pending: seq<Indexed<W>>,
    leased: map<nat, Record<W>>,
    done: map<nat, O>,
    inflight: map<string, set<nat>>,
    issued: nat)

  function Tagged<W>(work: seq<W>, idx: seq<nat>): seq<Indexed<W>>
    requires forall j :: 0 <= j < |idx| ==> idx[j] < |work|
  {
    seq(|idx|, j requires 0 <= j < |idx| => Indexed(idx[j], work[idx[j]]))
  }

  /** The fields spell out exactly the statuses: every unit is in `pending` once, under one id in
      `leased`, or in `done`; `pending` is ascending; `inflight` lists each worker's leases. */
  ghost predicate Spells<W, O>(f: Fields<W, O>, work: seq<W>, s: Sched<O>) {
    && |s.units| == |work|
    && f.issued == s.issued
    && f.pending == Tagged(work, AllWaiting(s.units))
    && LeasedSpelled(f.leased, work, s.units)
    && DoneSpelled(f.done, s.units)
    && InflightSpelled(f.inflight, s.units)
  }

  ghost predicate LeasedSpelled<W, O>(leased: map<nat, Record<W>>, work: seq<W>, u: seq<Status<O>>)
    requires |u| == |work|
  {
    && (forall id :: id in leased ==>
          var l := leased[id];
          l.index < |u| && l.wu == work[l.index] && u[l.index] == Leased(id, l.worker, l.deadline))
    && (forall i :: 0 <= i < |u| && u[i].Leased? ==> u[i].id in leased && leased[u[i].id].index == i)
  }

  ghost predicate DoneSpelled<O>(done: map<nat, O>, u: seq<Status<O>>) {
    && (forall i :: i in done ==> i < |u| && u[i] == Done(done[i]))
    && (forall i :: 0 <= i < |u| && u[i].Done? ==> i in done)
  }

  /** The ids a worker holds, none if it has not been seen. */
  function Of(inflight: map<string, set<nat>>, worker: string): set<nat> {
    if worker in inflight then inflight[worker] else {}
  }

  ghost predicate InflightSpelled<O>(inflight: map<string, set<nat>>, u: seq<Status<O>>) {
    forall w :: Held(u, w) == Of(inflight, w)
  }

  // ----- the fields after each kind of step -----

  /** The lease ids past their deadline, in the order `_leased` lists them: a dict lists its keys
      in insertion order, and ids are inserted as 1, 2, 3, ... */
  function Expired<W>(leased: map<nat, Record<W>>, now: int, upto: nat): (r: seq<nat>)
    ensures Ascending(r)
    ensures forall id :: id in r ==> 1 <= id <= upto && id in leased && now > leased[id].deadline
    ensures forall id :: 1 <= id <= upto && id in leased && now > leased[id].deadline ==> id in r
  {
    if upto == 0 then []
    else
      var r := Expired(leased, now, upto - 1);
      assert forall j :: 0 <= j < |r| ==> r[j] in r;
      r + if upto in leased && now > leased[upto].deadline then [upto] else []
  }

  /** A list of pairs sorted by index is `Tagged` as soon as it has the right members. */
  lemma SortedIsTagged<W>(work: seq<W>, s: seq<Indexed<W>>, idx: seq<nat>)
    requires ByIndex(s) && Ascending(idx)
    requires forall j :: 0 <= j < |idx| ==> idx[j] < |work| && Indexed(idx[j], work[idx[j]]) in s
    requires forall y :: y in s ==> y.index in idx && y.value == work[y.index]
    ensures s == Tagged(work, idx)
  {
    var keys := seq(|s|, j requires 0 <= j < |s| => s[j].index);
    assert forall j :: 0 <= j < |s| ==> keys[j] == s[j].index;
    forall x ensures x in keys <==> x in idx {
      if x in keys {
        var j :| 0 <= j < |keys| && keys[j] == x;
        assert s[j] in s;
      }
      if x in idx {
        var j :| 0 <= j < |s| && s[j] == Indexed(x, work[x]);
        assert keys[j] == x;
      }
    }
    AscendingUnique(keys, idx);
    forall j | 0 <= j < |s|
      ensures s[j] == Indexed(idx[j], work[idx[j]])
    {
      assert s[j] in s && s[j].index == keys[j];
    }
  }

  lemma {:induction false} FreshWaiting<O>(n: nat, k: nat)
    requires k <= n
    ensures Waiting(Fresh<O>(n).units, k) == seq(k, i requires 0 <= i < k => i)
  {
    if k > 0 {
      FreshWaiting<O>(n, k - 1);
    }
  }

  // ----- reclaiming, as the loop of `_reclaim` goes over the expired ids -----

  function Pairs<W>(leased: map<nat, Record<W>>, ids: seq<nat>): seq<Indexed<W>>
    requires forall id :: id in ids ==> id in leased
  {
    seq(|ids|, j requires 0 <= j < |ids| => Indexed(leased[ids[j]].index, leased[ids[j]].wu))
  }

  ghost predicate LeasedDropped<W>(l0: map<nat, Record<W>>, l: map<nat, Record<W>>, ids: seq<nat>) {
    && (forall id :: id in l ==> id in l0 && id !in ids)
    && (forall id :: id in l0 && id !in ids ==> id in l)
    && (forall id :: id in l ==> l[id] == l0[id])
  }

  function Left<O>(u: seq<Status<O>>, worker: string, ids: seq<nat>): set<nat> {
    set x | x in Held(u, worker) && x !in ids
  }

  ghost predicate InflightDropped<O>(inflight: map<string, set<nat>>, u: seq<Status<O>>, ids: seq<nat>) {
    forall w :: Of(inflight, w) == Left(u, w, ids)
  }

  /** The fields once the leases in `ids` have been dropped and their units appended to the pool. */
  ghost predicate Dropped<W, O>(f0: Fields<W, O>, f: Fields<W, O>, ids: seq<nat>, u: seq<Status<O>>) {
    && (forall id :: id in ids ==> id in f0.leased)
    && LeasedDropped(f0.leased, f.leased, ids)
    && InflightDropped(f.inflight, u, ids)
    && f.pending == f0.pending + Pairs(f0.leased, ids)
    && f.done == f0.done && f.issued == f0.issued
  }

  /** Dropping one more lease, as the loop body does it. */
  function DropOne<W, O>(f: Fields<W, O>, id: nat): Fields<W, O> {
    if id !in f.leased then f else
    var l := f.leased[id];
    f.(leased := f.leased - {id},
       inflight := Discard(f.inflight, l.worker, id),
       pending := f.pending + [Indexed(l.index, l.wu)])
  }

  /** Takes an id off what a worker holds. */
  function Discard(inflight: map<string, set<nat>>, worker: string, id: nat): (r: map<string, set<nat>>)
    ensures forall w :: Of(r, w) == if w == worker then Of(inflight, w) - {id} else Of(inflight, w)
  {
    if worker in inflight then inflight[worker := inflight[worker] - {id}] else inflight
  }

  /** Only the worker on the record holds a lease. */
  lemma HolderOf<W, O>(work: seq<W>, leased: map<nat, Record<W>>, u: seq<Status<O>>, id: nat, w: string)
    requires |u| == |work| && LeasedSpelled(leased, work, u) && id in leased
    ensures id in Held(u, w) <==> w == leased[id].worker
  {
  }

  lemma DroppedNext<W, O>(work: seq<W>, u: seq<Status<O>>, f0: Fields<W, O>, f: Fields<W, O>, ids: seq<nat>, id: nat)
    requires |u| == |work| && LeasedSpelled(f0.leased, work, u)
    requires Dropped(f0, f, ids, u) && id in f.leased
    ensures Dropped(f0, DropOne(f, id), ids + [id], u)
  {
    var l := f.leased[id];
    var g := DropOne(f, id);
    forall w
      ensures Of(g.inflight, w) == Left(u, w, ids + [id])
    {
      HolderOf(work, f0.leased, u, id, w);
      assert Of(f.inflight, w) == Left(u, w, ids);
    }
    assert Pairs(f0.leased, ids + [id]) == Pairs(f0.leased, ids) + [Indexed(l.index, l.wu)];
  }

  function DropAll<W, O>(f: Fields<W, O>, ids: seq<nat>): Fields<W, O> {
    if ids == [] then f else DropOne(DropAll(f, ids[..|ids| - 1]), ids[|ids| - 1])
  }

  lemma {:induction false} DropAllDropped<W, O>(work: seq<W>, u: seq<Status<O>>, f0: Fields<W, O>, ids: seq<nat>)
    requires |u| == |work| && LeasedSpelled(f0.leased, work, u) && InflightSpelled(f0.inflight, u)
    requires Ascending(ids) && forall id :: id in ids ==> id in f0.leased
    ensures Dropped(f0, DropAll(f0, ids), ids, u)
  {
    if ids != [] {
      var front, last := ids[..|ids| - 1], ids[|ids| - 1];
      DropAllDropped(work, u, f0, front);
      assert ids == front + [last];
      assert last in ids && last !in front;
      DroppedNext(work, u, f0, DropAll(f0, front), front, last);
    } else {
      forall w ensures Left(u, w, ids) == Held(u, w) {}
    }
  }

  /** Inside the loop the next lease is still there, and its unit is not finished, so the
      test for that never excludes one. */
  lemma NextIsThere<W, O>(work: seq<W>, u: seq<Status<O>>, f0: Fields<W, O>, ids: seq<nat>, k: nat)
    requires |u| == |work| && LeasedSpelled(f0.leased, work, u) && InflightSpelled(f0.inflight, u)
    requires DoneSpelled(f0.done, u)
    requires Ascending(ids) && (forall id :: id in ids ==> id in f0.leased) && k < |ids|
    ensures var f := DropAll(f0, ids[..k]);
      ids[k] in f.leased && f.leased[ids[k]].index !in f.done
    ensures DropAll(f0, ids[..k + 1]) == DropOne(DropAll(f0, ids[..k]), ids[k])
  {
    DropAllDropped(work, u, f0, ids[..k]);
    assert ids[k] in ids && ids[k] !in ids[..k];
    assert ids[..k + 1][..k] == ids[..k];
    NotFinished(work, u, f0, ids[k]);
  }

  /** What `_reclaim` makes of the fields. */
  function Reclaimed<W, O>(f: Fields<W, O>, now: int): Fields<W, O> {
    var ids := Expired(f.leased, now, f.issued);
    var g := DropAll(f, ids);
    if ids == [] then g else g.(pending := SortByIndex(g.pending))
  }

  /** After the loop and the sort, the fields spell out the reclaimed statuses. */
  lemma ReclaimSpells<W, O>(work: seq<W>, s: Sched<O>, now: int, f: Fields<W, O>)
    requires Spells(f, work, s) && IdsOk(s.units, s.issued)
    ensures Spells(Reclaimed(f, now), work, s.(units := LeaseModel.Reclaim(s.units, now)))
  {
    var ids := Expired(f.leased, now, f.issued);
    var g := DropAll(f, ids);
    ExpiredUnits(work, f.leased, s, now);
    DropAllDropped(work, s.units, f, ids);
    PoolAfterReclaim(work, s.units, now, f, g, ids);
    LeasedAfterReclaim(work, s.units, now, f.leased, g.leased, ids);
    ReclaimHeld(s.units, now, g.inflight, ids);
    if ids == [] {
      PoolSorted(work, s.units, f.pending);
    }
  }

  /** The expired ids are those of the units past their deadline. */
  lemma ExpiredUnits<W, O>(work: seq<W>, leased: map<nat, Record<W>>, s: Sched<O>, now: int)
    requires |work| == |s.units| && LeasedSpelled(leased, work, s.units) && IdsOk(s.units, s.issued)
    ensures OutOfTime(s.units, now, Expired(leased, now, s.issued))
    ensures forall id :: id in Expired(leased, now, s.issued) ==> id in leased
  {
  }

  ghost predicate OutOfTime<O>(u: seq<Status<O>>, now: int, ids: seq<nat>) {
    forall i :: 0 <= i < |u| && u[i].Leased? ==> (now > u[i].deadline <==> u[i].id in ids)
  }

  lemma LeasedAfterReclaim<W, O>(work: seq<W>, u: seq<Status<O>>, now: int,
    l0: map<nat, Record<W>>, l: map<nat, Record<W>>, ids: seq<nat>)
    requires |work| == |u| && LeasedSpelled(l0, work, u)
    requires OutOfTime(u, now, ids) && LeasedDropped(l0, l, ids)
    ensures LeasedSpelled(l, work, LeaseModel.Reclaim(u, now))
  {
  }

  lemma ReclaimHeld<O>(u: seq<Status<O>>, now: int, inflight: map<string, set<nat>>, ids: seq<nat>)
    requires OutOfTime(u, now, ids) && InflightDropped(inflight, u, ids)
    ensures InflightSpelled(inflight, LeaseModel.Reclaim(u, now))
  {
  }

  lemma PoolAfterReclaim<W, O>(work: seq<W>, u: seq<Status<O>>, now: int, f0: Fields<W, O>, f: Fields<W, O>,
      ids: seq<nat>)
    requires |work| == |u| && LeasedSpelled(f0.leased, work, u)
    requires f0.pending == Tagged(work, AllWaiting(u))
    requires OutOfTime(u, now, ids) && Ascending(ids)
    requires forall id :: id in ids ==> id in f0.leased
    requires f.pending == f0.pending + Pairs(f0.leased, ids)
    ensures SortByIndex(f.pending) == Tagged(work, AllWaiting(LeaseModel.Reclaim(u, now)))
  {
    WaitingList(LeaseModel.Reclaim(u, now), |u|);
    PoolDistinct(work, u, f0, ids);
    PoolMembers(work, u, now, f0, ids);
    SortByIndexCorrect(f.pending);
    SortedIsTagged(work, SortByIndex(f.pending), AllWaiting(LeaseModel.Reclaim(u, now)));
  }

  lemma WaitingUnits<W, O>(work: seq<W>, u: seq<Status<O>>, pending: seq<Indexed<W>>)
    requires |work| == |u| && pending == Tagged(work, AllWaiting(u))
    ensures ByIndex(pending)
    ensures forall j :: 0 <= j < |pending| ==> pending[j].index < |u| && u[pending[j].index].Pending?
  {
    WaitingList(u, |u|);
    forall j | 0 <= j < |pending|
      ensures pending[j].index < |u| && u[pending[j].index].Pending?
    {
      WaitingRank(u, j);
    }
  }

  lemma PoolSorted<W, O>(work: seq<W>, u: seq<Status<O>>, pending: seq<Indexed<W>>)
    requires |work| == |u| && pending == Tagged(work, AllWaiting(u))
    ensures SortByIndex(pending) == pending
  {
    WaitingUnits(work, u, pending);
    AlreadySorted(pending);
  }

  lemma PoolDistinct<W, O>(work: seq<W>, u: seq<Status<O>>, f0: Fields<W, O>, ids: seq<nat>)
    requires |work| == |u| && LeasedSpelled(f0.leased, work, u)
    requires f0.pending == Tagged(work, AllWaiting(u))
    requires Ascending(ids) && forall id :: id in ids ==> id in f0.leased
    ensures DistinctIndices(f0.pending + Pairs(f0.leased, ids))
  {
    var extra := Pairs(f0.leased, ids);
    WaitingUnits(work, u, f0.pending);
    forall j | 0 <= j < |extra|
      ensures extra[j].index < |u| && u[extra[j].index].Leased? && u[extra[j].index].id == ids[j]
    {
      assert ids[j] in ids;
    }
  }

  lemma PoolMembers<W, O>(work: seq<W>, u: seq<Status<O>>, now: int, f0: Fields<W, O>, ids: seq<nat>)
    requires |work| == |u| && LeasedSpelled(f0.leased, work, u)
    requires f0.pending == Tagged(work, AllWaiting(u))
    requires OutOfTime(u, now, ids) && forall id :: id in ids ==> id in f0.leased
    ensures var pool := f0.pending + Pairs(f0.leased, ids);
      var idx := AllWaiting(LeaseModel.Reclaim(u, now));
      && (forall j :: 0 <= j < |idx| ==> Indexed(idx[j], work[idx[j]]) in pool)
      && (forall y :: y in pool ==> y.index in idx && y.value == work[y.index])
  {
    var extra := Pairs(f0.leased, ids);
    var v := LeaseModel.Reclaim(u, now);
    WaitingList(v, |v|);
    forall i: nat | i < |v| && v[i].Pending?
      ensures Indexed(i, work[i]) in f0.pending + extra
    {
      WaitsInPool(work, u, f0, ids, i);
    }
    forall y | y in f0.pending + extra
      ensures y.index in AllWaiting(v) && y.value == work[y.index]
    {
      PoolWaits(work, u, f0, ids, y);
      assert v[y.index].Pending?;
    }
  }

  lemma WaitsInPool<W, O>(work: seq<W>, u: seq<Status<O>>, f0: Fields<W, O>, ids: seq<nat>, i: nat)
    requires |work| == |u| && LeasedSpelled(f0.leased, work, u)
    requires f0.pending == Tagged(work, AllWaiting(u))
    requires forall id :: id in ids ==> id in f0.leased
    requires i < |u| && (u[i].Pending? || (u[i].Leased? && u[i].id in ids))
    ensures Indexed(i, work[i]) in f0.pending + Pairs(f0.leased, ids)
  {
    if u[i].Pending? {
      RankLocates(u, i, |u|);
      assert f0.pending[Rank(u, i)] == Indexed(i, work[i]);
    } else {
      var a :| 0 <= a < |ids| && ids[a] == u[i].id;
      assert Pairs(f0.leased, ids)[a] == Indexed(i, work[i]);
    }
  }

  lemma PoolWaits<W, O>(work: seq<W>, u: seq<Status<O>>, f0: Fields<W, O>, ids: seq<nat>, y: Indexed<W>)
    requires |work| == |u| && LeasedSpelled(f0.leased, work, u)
    requires f0.pending == Tagged(work, AllWaiting(u))
    requires forall id :: id in ids ==> id in f0.leased
    requires y in f0.pending + Pairs(f0.leased, ids)
    ensures y.index < |u| && y.value == work[y.index]
    ensures u[y.index].Pending? || (u[y.index].Leased? && u[y.index].id in ids)
  {
    var extra := Pairs(f0.leased, ids);
    if y in extra {
      var a :| 0 <= a < |extra| && extra[a] == y;
      assert ids[a] in ids;
    } else {
      var a :| 0 <= a < |f0.pending| && f0.pending[a] == y;
      WaitingRank(u, a);
    }
  }

  /** A leased unit is never finished, so asking whether it is done changes nothing. */
  lemma NotFinished<W, O>(work: seq<W>, u: seq<Status<O>>, f: Fields<W, O>, id: nat)
    requires |work| == |u| && LeasedSpelled(f.leased, work, u) && DoneSpelled(f.done, u)
    requires id in f.leased
    ensures f.leased[id].index !in f.done
  {
  }

  // ----- lending, as the loop of `lease` pops the pool -----

  /** One turn of the loop: the first waiting unit goes out under the next id. */
  function LendFirst<W, O>(f: Fields<W, O>, worker: string, due: int): Fields<W, O> {
    if f.pending == [] then f else
    var p, id := f.pending[0], f.issued + 1;
    f.(pending := f.pending[1..],
       issued := id,
       leased := f.leased[id := Record(p.index, p.value, worker, due)],
       inflight := f.inflight[worker := Of(f.inflight, worker) + {id}])
  }

  function LendMany<W, O>(f: Fields<W, O>, worker: string, due: int, m: nat): Fields<W, O> {
    if m == 0 then f else LendFirst(LendMany(f, worker, due, m - 1), worker, due)
  }

  /** A worker that pulls is known from then on. */
  function Registered<W, O>(f: Fields<W, O>, worker: string): Fields<W, O> {
    f.(inflight := f.inflight[worker := Of(f.inflight, worker)])
  }

  /** Lending m units is lending m - 1 and then the first one still waiting. */
  lemma LendNext<O>(c: Config, u: seq<Status<O>>, issued: nat, worker: string, m: nat, now: int)
    requires m < |AllWaiting(u)|
    ensures var v := Lend(c, u, issued, worker, m, now);
      && AllWaiting(v) == AllWaiting(u)[m..]
      && Lend(c, u, issued, worker, m + 1, now)
         == v[AllWaiting(u)[m] := Leased(issued + 1 + m, worker, now + c.ttl)]
  {
    var v := Lend(c, u, issued, worker, m, now);
    var i := AllWaiting(u)[m];
    WaitingRank(u, m);
    LendWaiting(c, u, issued, worker, m, now);
    forall j | 0 <= j < |u| && j != i && u[j].Pending?
      ensures Rank(u, j) != m
    {
      RankLocates(u, j, |u|);
    }
    assert Lend(c, u, issued, worker, m + 1, now) == v[i := Leased(issued + 1 + m, worker, now + c.ttl)];
  }

  /** Lending takes a prefix of the waiting list. */
  lemma LendWaiting<O>(c: Config, u: seq<Status<O>>, issued: nat, worker: string, m: nat, now: int)
    requires m <= |AllWaiting(u)|
    ensures AllWaiting(Lend(c, u, issued, worker, m, now)) == AllWaiting(u)[m..]
  {
    var v := Lend(c, u, issued, worker, m, now);
    var all := AllWaiting(u);
    WaitingList(u, |u|);
    WaitingList(v, |v|);
    forall x | x in AllWaiting(v)
      ensures x in all[m..]
    {
      RankLocates(u, x, |u|);
      assert all[m..][Rank(u, x) - m] == x;
    }
    forall x | x in all[m..]
      ensures x in AllWaiting(v)
    {
      var j :| 0 <= j < |all[m..]| && all[m..][j] == x;
      WaitingRank(u, m + j);
    }
    AscendingUnique(AllWaiting(v), all[m..]);
  }

  /** The status machine lending one unit. */
  function LendOne<O>(s: Sched<O>, worker: string, due: int): (r: Sched<O>)
    ensures |r.units| == |s.units|
  {
    if AllWaiting(s.units) == [] then s
    else Sched(s.units[AllWaiting(s.units)[0] := Leased(s.issued + 1, worker, due)], s.issued + 1)
  }

  function LendTimes<O>(s: Sched<O>, worker: string, due: int, m: nat): (r: Sched<O>)
    ensures |r.units| == |s.units|
  {
    if m == 0 then s else LendOne(LendTimes(s, worker, due, m - 1), worker, due)
  }

  lemma {:induction false} LendTimesIsLend<O>(c: Config, s: Sched<O>, worker: string, m: nat, now: int)
    requires m <= |AllWaiting(s.units)|
    ensures LendTimes(s, worker, now + c.ttl, m) == Sched(Lend(c, s.units, s.issued, worker, m, now), s.issued + m)
  {
    if m == 0 {
      assert Lend(c, s.units, s.issued, worker, 0, now) == s.units;
    } else {
      LendTimesIsLend(c, s, worker, m - 1, now);
      LendNext(c, s.units, s.issued, worker, m - 1, now);
    }
  }

  lemma {:induction false} LendTimesOk<O>(s: Sched<O>, worker: string, due: int, m: nat)
    requires IdsOk(s.units, s.issued) && m <= |AllWaiting(s.units)|
    ensures var r := LendTimes(s, worker, due, m);
      && IdsOk(r.units, r.issued) && r.issued == s.issued + m
      && AllWaiting(r.units) == AllWaiting(s.units)[m..]
  {
    if m == 0 {
    } else {
      LendTimesOk(s, worker, due, m - 1);
      var r := LendTimes(s, worker, due, m - 1);
      WaitingRank(r.units, 0);
      FirstGone(r.units, LendOne(r, worker, due).units);
    }
  }

  lemma {:induction false} LendManySpells<W, O>(work: seq<W>, s: Sched<O>, f: Fields<W, O>, worker: string, m: nat,
      due: int)
    requires Spells(f, work, s) && IdsOk(s.units, s.issued) && m <= |AllWaiting(s.units)|
    ensures Spells(LendMany(f, worker, due, m), work, LendTimes(s, worker, due, m))
  {
    hide Spells, LendFirst, LendOne, AllWaiting, IdsOk;
    if m == 0 {
    } else {
      LendManySpells(work, s, f, worker, m - 1, due);
      LendTimesOk(s, worker, due, m - 1);
      LendFirstSpells(work, LendTimes(s, worker, due, m - 1), LendMany(f, worker, due, m - 1), worker, due);
    }
  }

  lemma LendFirstSpells<W, O>(work: seq<W>, s: Sched<O>, f: Fields<W, O>, worker: string, due: int)
    requires Spells(f, work, s) && IdsOk(s.units, s.issued) && AllWaiting(s.units) != []
    ensures Spells(LendFirst(f, worker, due), work, LendOne(s, worker, due))
  {
    var i, id := AllWaiting(s.units)[0], s.issued + 1;
    NextIdFree(work, s, f);
    assert |f.pending| == |AllWaiting(s.units)|;
    hide AllWaiting, Tagged, LeasedSpelled, DoneSpelled, InflightSpelled, IdsOk;
    FirstOut(work, s.units, f.pending, id, worker, due);
    LeasedPlusOne(work, s.units, f.leased, i, id, worker, due);
    HeldPlusOne(s.units, i, id, worker, due, f.inflight);
    DonePlusNone(f.done, s.units, i, id, worker, due);
  }

  lemma NextIdFree<W, O>(work: seq<W>, s: Sched<O>, f: Fields<W, O>)
    requires Spells(f, work, s) && IdsOk(s.units, s.issued)
    ensures s.issued + 1 !in f.leased
  {
  }

  lemma DonePlusNone<O>(done: map<nat, O>, u: seq<Status<O>>, i: nat, id: nat, worker: string, due: int)
    requires i < |u| && u[i].Pending? && DoneSpelled(done, u)
    ensures DoneSpelled(done, u[i := Leased(id, worker, due)])
  {
  }

  /** Popping the pool takes the first waiting unit off the waiting list. */
  lemma FirstOut<W, O>(work: seq<W>, u: seq<Status<O>>, pending: seq<Indexed<W>>, id: nat, worker: string, due: int)
    requires |work| == |u| && pending == Tagged(work, AllWaiting(u)) && pending != []
    ensures var i := AllWaiting(u)[0];
      && u[i].Pending? && pending[0] == Indexed(i, work[i])
      && pending[1..] == Tagged(work, AllWaiting(u[i := Leased(id, worker, due)]))
  {
    WaitingRank(u, 0);
    FirstGone(u, u[AllWaiting(u)[0] := Leased(id, worker, due)]);
  }

  lemma FirstGone<O>(u: seq<Status<O>>, v: seq<Status<O>>)
    requires AllWaiting(u) != [] && |v| == |u|
    requires !v[AllWaiting(u)[0]].Pending?
    requires forall i :: 0 <= i < |u| && i != AllWaiting(u)[0] ==> v[i] == u[i]
    ensures AllWaiting(v) == AllWaiting(u)[1..]
  {
    var all, rest := AllWaiting(u), AllWaiting(v);
    WaitingList(u, |u|);
    WaitingList(v, |v|);
    forall x | x in all[1..]
      ensures x in rest
    {
      var j :| 1 <= j < |all| && all[j] == x;
    }
    forall x | x in rest
      ensures x in all[1..]
    {
      var j :| 0 <= j < |all| && all[j] == x;
      assert j != 0;
      assert all[1..][j - 1] == x;
    }
    AscendingUnique(rest, all[1..]);
  }

  lemma LeasedPlusOne<W, O>(work: seq<W>, u: seq<Status<O>>, leased: map<nat, Record<W>>, i: nat, id: nat,
      worker: string, due: int)
    requires |u| == |work| && LeasedSpelled(leased, work, u)
    requires i < |u| && u[i].Pending? && id !in leased
    ensures LeasedSpelled(leased[id := Record(i, work[i], worker, due)], work, u[i := Leased(id, worker, due)])
  {
  }

  lemma HeldPlusOne<O>(u: seq<Status<O>>, i: nat, id: nat, worker: string, due: int, inflight: map<string, set<nat>>)
    requires i < |u| && u[i].Pending? && InflightSpelled(inflight, u)
    ensures InflightSpelled(inflight[worker := Of(inflight, worker) + {id}], u[i := Leased(id, worker, due)])
  {
    var v := u[i := Leased(id, worker, due)];
    forall w
      ensures Held(v, w) == Held(u, w) + if w == worker then {id} else {}
    {
      HeldAfterOne(u, i, id, worker, due, w);
    }
  }

  lemma HeldAfterOne<O>(u: seq<Status<O>>, i: nat, id: nat, worker: string, due: int, w: string)
    requires i < |u| && u[i].Pending?
    ensures Held(u[i := Leased(id, worker, due)], w) == Held(u, w) + if w == worker then {id} else {}
  {
    var v := u[i := Leased(id, worker, due)];
    forall x | x in Held(u, w)
      ensures x in Held(v, w)
    {
      var j :| 0 <= j < |u| && u[j].Leased? && u[j].worker == w && u[j].id == x;
      assert v[j] == u[j];
    }
    if w == worker {
      assert v[i].id in Held(v, w);
    }
    forall x | x in Held(v, w)
      ensures x in Held(u, w) || (w == worker && x == id)
    {
      var j :| 0 <= j < |v| && v[j].Leased? && v[j].worker == w && v[j].id == x;
      if j != i {
        assert v[j] == u[j];
      }
    }
  }

  lemma {:induction false} LendManyPool<W, O>(f: Fields<W, O>, worker: string, due: int, k: nat)
    requires k <= |f.pending| && worker in f.inflight
    ensures var g := LendMany(f, worker, due, k);
      g.pending == f.pending[k..] && g.issued == f.issued + k && worker in g.inflight
  {
    if k == 0 {
    } else {
      LendManyPool(f, worker, due, k - 1);
    }
  }

  /** The next lease id is not held yet. */
  lemma HeldIds<O>(u: seq<Status<O>>, issued: nat, worker: string)
    requires IdsOk(u, issued)
    ensures issued + 1 !in Held(u, worker)
  {
  }

  lemma LendOneHeld<O>(s: Sched<O>, worker: string, due: int)
    requires IdsOk(s.units, s.issued) && AllWaiting(s.units) != []
    ensures |Held(LendOne(s, worker, due).units, worker)| == |Held(s.units, worker)| + 1
  {
    var i := AllWaiting(s.units)[0];
    WaitingRank(s.units, 0);
    HeldIds(s.units, s.issued, worker);
    HeldAfterOne(s.units, i, s.issued + 1, worker, due, worker);
    hide Held, IdsOk;
  }

  lemma {:induction false} LendTimesHeld<O>(s: Sched<O>, worker: string, due: int, k: nat)
    requires IdsOk(s.units, s.issued) && k <= |AllWaiting(s.units)|
    ensures |Held(LendTimes(s, worker, due, k).units, worker)| == |Held(s.units, worker)| + k
  {
    if k == 0 {
    } else {
      LendTimesHeld(s, worker, due, k - 1);
      LendTimesOk(s, worker, due, k - 1);
      var t := LendTimes(s, worker, due, k - 1);
      LendOneHeld(t, worker, due);
      hide Held, AllWaiting, IdsOk, LendOne;
    }
  }

  function Handouts<W, O>(f: Fields<W, O>, k: nat): seq<Handout<W>>
    requires k <= |f.pending|
  {
    seq(k, j requires 0 <= j < k => Handout(f.issued + 1 + j, f.pending[j].index, f.pending[j].value))
  }

  /** What the loop of `lease` has done after k turns, and what the next turn does. */
  lemma LoopTurns<W, O>(work: seq<W>, s: Sched<O>, f: Fields<W, O>, worker: string, due: int, k: nat)
    requires Spells(f, work, s) && IdsOk(s.units, s.issued) && k <= |f.pending| && worker in f.inflight
    ensures |f.pending| == |AllWaiting(s.units)|
    ensures k == 0 ==> LendMany(f, worker, due, k) == f && Handouts(f, k) == []
    ensures var g := LendMany(f, worker, due, k);
      && g.pending == f.pending[k..] && worker in g.inflight
      && |g.inflight[worker]| == |Held(s.units, worker)| + k
      && (k < |f.pending| ==>
            && LendMany(f, worker, due, k + 1) == LendFirst(g, worker, due)
            && Handouts(f, k + 1) == Handouts(f, k) + [Handout(g.issued + 1, g.pending[0].index, g.pending[0].value)])
  {
    hide Held, Waiting, LendTimes;
    LendManyPool(f, worker, due, k);
    LendManySpells(work, s, f, worker, k, due);
    LendTimesHeld(s, worker, due, k);
    assert Of(LendMany(f, worker, due, k).inflight, worker) == Held(LendTimes(s, worker, due, k).units, worker);
  }

  function Grants<W>(out: seq<Handout<W>>): seq<Grant> {
    seq(|out|, j requires 0 <= j < |out| => Grant(out[j].leaseId, out[j].index))
  }

  /** What `lease` leaves behind is what the status machine says. */
  lemma LeaseSpells<W, O>(c: Config, work: seq<W>, s0: Sched<O>, s: Sched<O>, f: Fields<W, O>, worker: string, n: int,
      now: int)
    requires s == s0.(units := LeaseModel.Reclaim(s0.units, now))
    requires Spells(f, work, s) && IdsOk(s.units, s.issued)
    ensures Spells(LendMany(f, worker, now + c.ttl, Amount(c, s.units, worker, n)), work,
      Step(c, s0, At(now, Lease(worker, n))).0)
  {
    hide Spells, IdsOk, LendMany, LendTimes, AllWaiting, Held, LeaseModel.Reclaim;
    var m := Amount(c, s.units, worker, n);
    LendManySpells(work, s, f, worker, m, now + c.ttl);
    LendTimesIsLend(c, s, worker, m, now);
  }

  /** What `lease` hands out is what the status machine says, each unit with its own payload. */
  lemma LeaseHandsOut<W, O>(c: Config, work: seq<W>, s0: Sched<O>, s: Sched<O>, f: Fields<W, O>, worker: string,
      n: int, now: int)
    requires s == s0.(units := LeaseModel.Reclaim(s0.units, now))
    requires |s.units| == |work| && f.pending == Tagged(work, AllWaiting(s.units)) && f.issued == s.issued
    ensures var m := Amount(c, s.units, worker, n);
      && m <= |f.pending|
      && Granted(Grants(Handouts(f, m))) == Step(c, s0, At(now, Lease(worker, n))).1
      && forall h :: h in Handouts(f, m) ==> h.index < |work| && h.wu == work[h.index]
  {
  }

  // ----- completing -----

  function Completed<W, O>(f: Fields<W, O>, id: nat, output: O): Fields<W, O> {
    if id !in f.leased then f else
    var l := f.leased[id];
    f.(leased := f.leased - {id},
       inflight := Discard(f.inflight, l.worker, id),
       done := if l.index in f.done then f.done else f.done[l.index := output])
  }

  lemma CompleteSpells<W, O>(c: Config, work: seq<W>, s: Sched<O>, f: Fields<W, O>, id: nat, output: O, now: int)
    requires Spells(f, work, s) && Inv(c, s)
    ensures var r := Step(c, s, At(now, Complete(id, output)));
      && Spells(Completed(f, id, output), work, r.0) && Inv(c, r.0)
      && r.1 == Accepted(id in f.leased)
  {
    StepInv(c, s, At(now, Complete(id, output)));
    var v := Step(c, s, At(now, Complete(id, output))).0.units;
    if id in f.leased {
      assert s.units[f.leased[id].index].Leased?;
      NotFinished(work, s.units, f, id);
      FinishedUnits(work, s, f, id, output, v);
      SameWaiting(s.units, v, |v|);
      FinishHeld(work, s.units, v, f, id);
    } else {
      assert v == s.units;
    }
  }

  lemma FinishedUnits<W, O>(work: seq<W>, s: Sched<O>, f: Fields<W, O>, id: nat, output: O, v: seq<Status<O>>)
    requires |s.units| == |work| && LeasedSpelled(f.leased, work, s.units) && DoneSpelled(f.done, s.units)
    requires id in f.leased && IdsOk(s.units, s.issued)
    requires |v| == |s.units| && forall i :: 0 <= i < |v| ==> v[i] == Finish(s.units[i], id, output)
    ensures v == s.units[f.leased[id].index := Done(output)]
    ensures LeasedSpelled(f.leased - {id}, work, v) && DoneSpelled(f.done[f.leased[id].index := output], v)
  {
    var k := f.leased[id].index;
    assert s.units[k].Leased? && s.units[k].id == id;
    assert v == s.units[k := Done(output)];
  }

  lemma FinishHeld<W, O>(work: seq<W>, u: seq<Status<O>>, v: seq<Status<O>>, f: Fields<W, O>, id: nat)
    requires |u| == |work| && LeasedSpelled(f.leased, work, u) && InflightSpelled(f.inflight, u)
    requires id in f.leased && |v| == |u|
    requires v[f.leased[id].index].Done? && forall i :: 0 <= i < |v| && i != f.leased[id].index ==> v[i] == u[i]
    ensures InflightSpelled(Discard(f.inflight, f.leased[id].worker, id), v)
  {
  }

  // ----- heartbeats -----

  function BeatRecord<W>(l: Record<W>, id: nat, worker: string, which: Option<nat>, due: int): Record<W> {
    if l.worker == worker && (which.None? || id == which.value) then l.(deadline := due) else l
  }

  lemma BeatSpells<W, O>(c: Config, work: seq<W>, s: Sched<O>, f: Fields<W, O>, l: map<nat, Record<W>>,
    worker: string, which: Option<nat>, now: int)
    requires Spells(f, work, s)
    requires l.Keys == f.leased.Keys
    requires forall id :: id in l ==> l[id] == BeatRecord(f.leased[id], id, worker, which, now + c.ttl)
    ensures Spells(f.(leased := l), work, Step(c, s, At(now, Heartbeat(worker, which))).0)
  {
    var v := Step(c, s, At(now, Heartbeat(worker, which))).0.units;
    BeatKeeps(c, s.units, v, f, worker, which, now);
    BeatLeased(c, work, s.units, v, f.leased, l, worker, which, now);
    hide AllWaiting, LeasedSpelled, DoneSpelled, InflightSpelled, Beat;
  }

  /** A heartbeat moves deadlines only. */
  lemma BeatKeeps<W, O>(c: Config, u: seq<Status<O>>, v: seq<Status<O>>, f: Fields<W, O>, worker: string,
      which: Option<nat>, now: int)
    requires |u| == |v| && forall i :: 0 <= i < |u| ==> v[i] == Beat(c, u[i], worker, which, now)
    requires DoneSpelled(f.done, u) && InflightSpelled(f.inflight, u)
    ensures AllWaiting(v) == AllWaiting(u) && DoneSpelled(f.done, v) && InflightSpelled(f.inflight, v)
  {
    hide Held, Waiting;
    SameWaiting(u, v, |v|);
    forall w
      ensures Held(v, w) == Of(f.inflight, w)
    {
      SameHeld(u, v, w);
    }
  }

  lemma BeatLeased<W, O>(c: Config, work: seq<W>, u: seq<Status<O>>, v: seq<Status<O>>,
    l0: map<nat, Record<W>>, l: map<nat, Record<W>>, worker: string, which: Option<nat>, now: int)
    requires |u| == |work| == |v| && LeasedSpelled(l0, work, u)
    requires forall i :: 0 <= i < |u| ==> v[i] == Beat(c, u[i], worker, which, now)
    requires l.Keys == l0.Keys
    requires forall id :: id in l ==> l[id] == BeatRecord(l0[id], id, worker, which, now + c.ttl)
    ensures LeasedSpelled(l, work, v)
  {
    forall id | id in l
      ensures l[id].index < |v| && l[id].wu == work[l[id].index]
      ensures v[l[id].index] == Leased(id, l[id].worker, l[id].deadline)
    {
      assert u[l0[id].index] == Leased(id, l0[id].worker, l0[id].deadline);
    }
    forall i | 0 <= i < |v| && v[i].Leased?
      ensures v[i].id in l && l[v[i].id].index == i
    {
      assert u[i].id in l0;
    }
  }

  /** The records once the loop of `heartbeat` has passed the first k ids. */
  function BeatUpTo<W>(l: map<nat, Record<W>>, worker: string, which: Option<nat>, due: int, k: nat)
    : map<nat, Record<W>>
  {
    map id | id in l :: if id <= k then BeatRecord(l[id], id, worker, which, due) else l[id]
  }

  lemma BeatOneMore<W>(l: map<nat, Record<W>>, worker: string, which: Option<nat>, due: int, k: nat)
    ensures var a, b := BeatUpTo(l, worker, which, due, k), BeatUpTo(l, worker, which, due, k + 1);
      if k + 1 in a then b == a[k + 1 := BeatRecord(a[k + 1], k + 1, worker, which, due)] else b == a
  {
  }

  lemma BeatDone<W, O>(c: Config, work: seq<W>, s: Sched<O>, f: Fields<W, O>, worker: string, which: Option<nat>,
      now: int)
    requires Spells(f, work, s) && Inv(c, s)
    ensures var r := Step(c, s, At(now, Heartbeat(worker, which))).0;
      && Spells(f.(leased := BeatUpTo(f.leased, worker, which, now + c.ttl, f.issued)), work, r)
      && Inv(c, r)
    ensures BeatUpTo(f.leased, worker, which, now + c.ttl, 0) == f.leased
  {
    AllIssued(work, f, s);
    StepInv(c, s, At(now, Heartbeat(worker, which)));
    assert BeatUpTo(f.leased, worker, which, now + c.ttl, 0) == f.leased;
    hide Spells, Inv, Step;
    BeatSpells(c, work, s, f, BeatUpTo(f.leased, worker, which, now + c.ttl, f.issued), worker, which, now);
  }

  lemma SameHeld<O>(u: seq<Status<O>>, v: seq<Status<O>>, w: string)
    requires |u| == |v|
    requires forall i :: 0 <= i < |u| ==> (u[i].Leased? <==> v[i].Leased?)
    requires forall i :: 0 <= i < |u| && u[i].Leased? ==> u[i].id == v[i].id && u[i].worker == v[i].worker
    ensures Held(u, w) == Held(v, w)
  {
  }

  lemma RegisterSpells<W, O>(work: seq<W>, s: Sched<O>, f: Fields<W, O>, worker: string)
    requires Spells(f, work, s)
    ensures Spells(Registered(f, worker), work, s)
  {
  }

  lemma DoneValues<W, O>(work: seq<W>, s: Sched<O>, f: Fields<W, O>)
    requires Spells(f, work, s)
    ensures DoneSpelled(f.done, s.units)
  {
  }

  lemma AllIssued<W, O>(work: seq<W>, f: Fields<W, O>, s: Sched<O>)
    requires Spells(f, work, s) && IdsOk(s.units, s.issued)
    ensures forall id :: id in f.leased ==> 1 <= id <= f.issued
  {
  }

  lemma DrainedMeansDone<W, O>(work: seq<W>, s: Sched<O>, f: Fields<W, O>)
    requires Spells(f, work, s)
    ensures (f.pending == [] && f.leased == map[]) <==> forall i :: 0 <= i < |s.units| ==> s.units[i].Done?
  {
    hide Held, Waiting;
    WaitingUnits(work, s.units, f.pending);
    WaitingList(s.units, |s.units|);
    if f.pending != [] {
      assert s.units[f.pending[0].index].Pending?;
    } else if f.leased != map[] {
      var id :| id in f.leased;
      assert s.units[f.leased[id].index].Leased?;
    } else {
      forall i | 0 <= i < |s.units|
        ensures s.units[i].Done?
      {
        assert i !in AllWaiting(s.units);
      }
    }
  }

  /** Listing the finished units by index and taking the outputs gives the results. */
  lemma {:induction false} SortedOutputs<O>(u: seq<Status<O>>, s: seq<Indexed<O>>)
    requires ByIndex(s) && ListsDone(u, s)
    ensures Values(s) == Results(u)
  {
    if |u| == 0 {
      assert s != [] ==> s[0] in s;
    } else {
      var n, m := |u| - 1, |s| - 1;
      LastDone(u, s);
      hide ListsDone, ByIndex;
      if u[n].Done? {
        SortedOutputs(u[..n], s[..m]);
        assert Values(s) == Values(s[..m]) + [s[m].value];
      } else {
        SortedOutputs(u[..n], s);
      }
    }
  }

  /** The pairs are the finished units with their outputs. */
  ghost predicate ListsDone<O>(u: seq<Status<O>>, s: seq<Indexed<O>>) {
    && (forall y :: y in s ==> y.index < |u| && u[y.index] == Done(y.value))
    && (forall i :: 0 <= i < |u| && u[i].Done? ==> Indexed(i, u[i].output) in s)
  }

  /** The last pair is for the last unit if that is finished; the pairs before it are for the units before. */
  lemma LastDone<O>(u: seq<Status<O>>, s: seq<Indexed<O>>)
    requires ByIndex(s) && ListsDone(u, s) && u != []
    ensures var n, m := |u| - 1, |s| - 1;
      if u[n].Done? then s != [] && s[m] == Indexed(n, u[n].output) && ByIndex(s[..m]) && ListsDone(u[..n], s[..m])
      else ListsDone(u[..n], s)
  {
    if u[|u| - 1].Done? {
      LastListed(u, s);
      EarlierListed(u, s);
    }
  }

  lemma LastListed<O>(u: seq<Status<O>>, s: seq<Indexed<O>>)
    requires ByIndex(s) && ListsDone(u, s) && u != [] && u[|u| - 1].Done?
    ensures s != [] && s[|s| - 1] == Indexed(|u| - 1, u[|u| - 1].output)
  {
    assert Indexed(|u| - 1, u[|u| - 1].output) in s;
    var k :| 0 <= k < |s| && s[k] == Indexed(|u| - 1, u[|u| - 1].output);
    assert s[|s| - 1] in s;
  }

  lemma EarlierListed<O>(u: seq<Status<O>>, s: seq<Indexed<O>>)
    requires ByIndex(s) && ListsDone(u, s) && u != [] && s != [] && s[|s| - 1].index == |u| - 1
    ensures ByIndex(s[..|s| - 1]) && ListsDone(u[..|u| - 1], s[..|s| - 1])
  {
    var n, m := |u| - 1, |s| - 1;
    forall i | 0 <= i < n && u[i].Done?
      ensures Indexed(i, u[i].output) in s[..m]
    {
      var j :| 0 <= j < |s| && s[j] == Indexed(i, u[i].output);
      assert s[..m][j] == s[j];
    }
    forall y | y in s[..m]
      ensures y in s && y.index < n
    {
      var j :| 0 <= j < m && s[j] == y;
    }
  }

  function Values<O>(s: seq<Indexed<O>>): seq<O> {
    seq(|s|, j requires 0 <= j < |s| => s[j].value)
  }

  // ----- the scheduler -----

  class Scheduler<W, O> {
    const limit: int
    const ttl: int
    ghost const work: seq<W>
    var pending: seq<Indexed<W>>
    var leased: map<nat, Record<W>>
    var done: map<nat, O>
    var inflight: map<string, set<nat>>
    var issued: nat
    /** The statuses the fields stand for. */
    ghost var model: Sched<O>

    ghost function Conf(): Config { Config(limit, ttl) }

    ghost predicate Valid()
      reads this
    {
      && Spells(TheFields(), work, model)
      && Inv(Conf(), model)
    }

    constructor (workUnits: seq<W>, maxInFlight: int, leaseTtl: int)
      ensures Valid() && model == Fresh(|workUnits|)
      ensures work == workUnits && Conf() == Config(maxInFlight, leaseTtl)
    {
      limit, ttl := maxInFlight, leaseTtl;
      work := workUnits;
      pending := seq(|workUnits|, i requires 0 <= i < |workUnits| => Indexed(i, workUnits[i]));
      leased, done, inflight, issued := map[], map[], map[], 0;
      model := Fresh(|workUnits|);
      new;
      FreshInv<O>(Conf(), |work|);
      FreshWaiting<O>(|work|, |work|);
      forall w ensures Held(model.units, w) == {} {}
    }

    ghost function TheFields(): Fields<W, O>
      reads this
    {
      Fields(pending, leased, done, inflight, issued)
    }

    /** Leases past their deadline go back to the pool. */
    method Reclaim(now: int) returns (expired: seq<nat>)
      requires Valid()
      modifies this
      ensures Valid()
      ensures model == old(model).(units := LeaseModel.Reclaim(old(model).units, now))
      ensures expired == Expired(old(leased), now, old(issued))
    {
      ghost var s := model;
      ExpiredUnits(work, leased, s, now);
      ReclaimSpells(work, s, now, TheFields());
      ShrinkInv(Conf(), s, LeaseModel.Reclaim(s.units, now));
      expired := Expired(leased, now, issued);
      DropLeases(expired);
      if expired != [] {
        pending := SortByIndex(pending);
      }
      model := s.(units := LeaseModel.Reclaim(s.units, now));
    }

    /** The loop of `_reclaim`. */
    method DropLeases(expired: seq<nat>)
      requires |model.units| == |work| && LeasedSpelled(leased, work, model.units)
      requires DoneSpelled(done, model.units) && InflightSpelled(inflight, model.units)
      requires Ascending(expired) && forall id :: id in expired ==> id in leased
      modifies this
      ensures TheFields() == DropAll(old(TheFields()), expired)
    {
      ghost var f0 := TheFields();
      var k := 0;
      while k < |expired|
        invariant 0 <= k <= |expired|
        invariant TheFields() == DropAll(f0, expired[..k])
        invariant model == old(model)
      {
        NextIsThere(work, model.units, f0, expired, k);
        var id := expired[k];
        var l := leased[id];
        leased := leased - {id};
        inflight := Discard(inflight, l.worker, id);
        if l.index !in done {
          pending := pending + [Indexed(l.index, l.wu)];
        }
        k := k + 1;
      }
      assert expired[..k] == expired;
    }

    /** A worker pulls up to n units. */
    method Lease(worker: string, n: int, now: int) returns (out: seq<Handout<W>>)
      requires Valid()
      modifies this
      ensures Valid()
      ensures (model, Granted(Grants(out))) == Step(Conf(), old(model), At(now, Call.Lease(worker, n)))
      ensures forall h :: h in out ==> h.index < |work| && h.wu == work[h.index]
    {
      hide Spells;
      ghost var s0 := model;
      StepInv(Conf(), s0, At(now, Call.Lease(worker, n)));
      var _ := Reclaim(now);
      ghost var s := model;
      RegisterSpells(work, s, TheFields(), worker);
      LeaseSpells(Conf(), work, s0, s, Registered(TheFields(), worker), worker, n, now);
      LeaseHandsOut(Conf(), work, s0, s, Registered(TheFields(), worker), worker, n, now);
      inflight := inflight[worker := Of(inflight, worker)];
      out := PopWhileRoom(worker, n, now + ttl);
      model := Step(Conf(), s0, At(now, Call.Lease(worker, n))).0;
    }

    /** The loop of `lease`. */
    method PopWhileRoom(worker: string, n: int, due: int) returns (out: seq<Handout<W>>)
      requires Spells(TheFields(), work, model) && IdsOk(model.units, model.issued) && worker in inflight
      modifies this
      ensures |out| == Amount(Conf(), model.units, worker, n) <= |old(pending)|
      ensures out == Handouts(old(TheFields()), |out|)
      ensures TheFields() == LendMany(old(TheFields()), worker, due, |out|)
      ensures model == old(model)
    {
      hide Spells, IdsOk, LendMany, LendFirst, Handouts, Held, AllWaiting;
      ghost var f, s := TheFields(), model;
      out := [];
      LoopTurns(work, s, f, worker, due, 0);
      while pending != [] && |inflight[worker]| < limit && |out| < n
        invariant |out| <= |f.pending| && out == Handouts(f, |out|)
        invariant TheFields() == LendMany(f, worker, due, |out|)
        invariant pending == f.pending[|out|..] && worker in inflight
        invariant |inflight[worker]| == |Held(s.units, worker)| + |out|
        invariant |out| <= Amount(Conf(), s.units, worker, n)
        invariant model == s
        decreases |pending|
      {
        LoopTurns(work, s, f, worker, due, |out|);
        LoopTurns(work, s, f, worker, due, |out| + 1);
        var h := PopFirst(worker, due);
        out := out + [h];
      }
    }

    /** The body of that loop. */
    method PopFirst(worker: string, due: int) returns (h: Handout<W>)
      requires pending != [] && worker in inflight
      modifies this
      ensures TheFields() == LendFirst(old(TheFields()), worker, due) && model == old(model)
      ensures h == Handout(old(issued) + 1, old(pending)[0].index, old(pending)[0].value)
    {
      var p := pending[0];
      pending := pending[1..];
      issued := issued + 1;
      var id := issued;
      leased := leased[id := Record(p.index, p.value, worker, due)];
      inflight := inflight[worker := inflight[worker] + {id}];
      h := Handout(id, p.index, p.value);
    }

    /** Returns a result: True iff the lease is still out. A deadline that has passed does not
        matter until someone reclaims. */
    method Complete(id: nat, output: O, ghost now: int) returns (ok: bool)
      requires Valid()
      modifies this
      ensures Valid()
      ensures (model, Accepted(ok)) == Step(Conf(), old(model), At(now, Call.Complete(id, output)))
    {
      CompleteSpells(Conf(), work, model, TheFields(), id, output, now);
      model := Step(Conf(), model, At(now, Call.Complete(id, output))).0;
      if id !in leased {
        return false;
      }
      var l := leased[id];
      leased := leased - {id};
      inflight := Discard(inflight, l.worker, id);
      if l.index !in done {
        done := done[l.index := output];
      }
      return true;
    }

    /** A progress signal: the worker's leases, or the one named, are due one duration from now. */
    method Heartbeat(worker: string, which: Option<nat>, now: int)
      requires Valid()
      modifies this
      ensures Valid()
      ensures model == Step(Conf(), old(model), At(now, Call.Heartbeat(worker, which))).0
    {
      hide Spells, Inv, Step, BeatUpTo;
      ghost var f, s := TheFields(), model;
      BeatDone(Conf(), work, s, f, worker, which, now);
      var id := 0;
      while id < issued
        invariant 0 <= id <= issued && model == s
        invariant TheFields() == f.(leased := BeatUpTo(f.leased, worker, which, now + ttl, id))
      {
        BeatOneMore(f.leased, worker, which, now + ttl, id);
        id := id + 1;
        if id in leased {
          var l := leased[id];
          if l.worker == worker && (which.None? || id == which.value) {
            leased := leased[id := l.(deadline := now + ttl)];
          }
        }
      }
      model := Step(Conf(), s, At(now, Call.Heartbeat(worker, which))).0;
    }

    /** Reclaims, then says whether nothing is waiting and nothing is out. */
    method Drained(now: int) returns (yes: bool)
      requires Valid()
      modifies this
      ensures Valid()
      ensures (model, IsDrained(yes)) == Step(Conf(), old(model), At(now, Call.Drained))
    {
      hide LeaseModel.Reclaim, Spells;
      var _ := Reclaim(now);
      yes := pending == [] && leased == map[];
      DrainedMeansDone(work, model, TheFields());
    }

    /** The outputs of the finished units, sorted by index. */
    method ResultsInOrder() returns (r: seq<O>)
      requires Valid()
      ensures r == Results(model.units)
    {
      DoneValues(work, model, TheFields());
      hide Spells;
      var keys := done.Keys;
      var items: seq<Indexed<O>> := [];
      while keys != {}
        invariant keys <= done.Keys && DistinctIndices(items)
        invariant forall y :: y in items ==> y.index in done && y.index !in keys && y.value == done[y.index]
        invariant forall k :: k in done && k !in keys ==> Indexed(k, done[k]) in items
      {
        var k :| k in keys;
        keys := keys - {k};
        items := items + [Indexed(k, done[k])];
      }
      SortByIndexCorrect(items);
      SortedOutputs(model.units, SortByIndex(items));
      r := Values(SortByIndex(items));
    }
  }
}
