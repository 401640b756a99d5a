/** The lease protocol seen as one status per Work Unit.

    A unit is waiting, borrowed under one lease, or finished with one output. The
    machine below says what each call of tools/lease_scheduler.py does to these
    statuses; LeaseScheduler.dfy proves that the real fields implement it. */
module LeaseModel {
  import opened Basics
  import opened Options
  import opened Orders

  datatype Status<O> =
    | Pending
    | Leased(id: nat, worker: string, deadline: int)
    | Done(output: O)

  /** `issued` counts leases ever handed out; lease ids are 1, 2, ..., issued. */
  datatype Sched<O> = Sched(units: seq<Status<O>>, issued: nat)

  /** The per-worker limiter and the lease duration. Either may be any integer. */
  datatype Config = Config(limit: int, ttl: int)

  datatype Grant = Grant(id: nat, index: nat)

  datatype Call<O> =
    | Lease(worker: string, n: int)
    | Complete(id: nat, output: O)
    | Heartbeat(worker: string, which: Option<nat>)
    | Drained

  /** A call together with what the clock read during it. */
  datatype Timed<O> = At(now: int, call: Call<O>)

  datatype Reply = Granted(grants: seq<Grant>) | Accepted(ok: bool) | Beaten | IsDrained(yes: bool)

  function Fresh<O>(n: nat): (s: Sched<O>)
    ensures |s.units| == n
  {
    Sched(seq(n, _ => Pending), 0)
  }

  // ----- the waiting units, in index order -----

  /** The waiting indices below k, ascending. */
  function Waiting<O>(u: seq<Status<O>>, k: nat): (r: seq<nat>)
    requires k <= |u|
    ensures forall j :: 0 <= j < |r| ==> r[j] < k
  {
    if k == 0 then [] else Waiting(u, k - 1) + if u[k - 1].Pending? then [k - 1] else []
  }

  /** The list is strictly ascending and holds the waiting units below k, no others. */
  lemma {:induction false} WaitingList<O>(u: seq<Status<O>>, k: nat)
    requires k <= |u|
    ensures Ascending(Waiting(u, k))
    ensures forall i :: i in Waiting(u, k) ==> i < k && u[i].Pending?
    ensures forall i :: 0 <= i < k && u[i].Pending? ==> i in Waiting(u, k)
  {
    if k == 0 {
    } else {
      WaitingList(u, k - 1);
    }
  }

  function AllWaiting<O>(u: seq<Status<O>>): seq<nat> {
    Waiting(u, |u|)
  }

  /** How many waiting units come before unit i. */
  function Rank<O>(u: seq<Status<O>>, i: nat): nat
    requires i <= |u|
  {
    |Waiting(u, i)|
  }

  /** A waiting unit sits in the waiting list at the position its rank says. */
  lemma {:induction false} RankLocates<O>(u: seq<Status<O>>, i: nat, k: nat)
    requires i < k <= |u| && u[i].Pending?
    ensures Rank(u, i) < |Waiting(u, k)| && Waiting(u, k)[Rank(u, i)] == i
  {
    if i == k - 1 {
    } else {
      RankLocates(u, i, k - 1);
    }
  }

  lemma {:induction false} WaitingRank<O>(u: seq<Status<O>>, j: nat)
    requires j < |AllWaiting(u)|
    ensures u[AllWaiting(u)[j]].Pending? && Rank(u, AllWaiting(u)[j]) == j
  {
    var i := AllWaiting(u)[j];
    WaitingList(u, |u|);
    assert i in AllWaiting(u);
    RankLocates(u, i, |u|);
  }

  /** The waiting list of a status vector is determined by which units wait. */
  lemma {:induction false} SameWaiting<O>(u: seq<Status<O>>, v: seq<Status<O>>, k: nat)
    requires k <= |u| && k <= |v|
    requires forall i :: 0 <= i < k ==> (u[i].Pending? <==> v[i].Pending?)
    ensures Waiting(u, k) == Waiting(v, k)
  {
    if k == 0 {
    } else {
      SameWaiting(u, v, k - 1);
    }
  }

  // ----- what each call does -----

  function Expire<O>(x: Status<O>, now: int): Status<O> {
    if x.Leased? && now > x.deadline then Pending else x
  }

  function Reclaim<O>(u: seq<Status<O>>, now: int): (v: seq<Status<O>>)
    ensures |v| == |u| && forall i :: 0 <= i < |u| ==> v[i] == Expire(u[i], now)
  {
    seq(|u|, i requires 0 <= i < |u| => Expire(u[i], now))
  }

  /** The leases a worker holds. */
  function Held<O>(u: seq<Status<O>>, worker: string): set<nat> {
    set i | 0 <= i < |u| && u[i].Leased? && u[i].worker == worker :: u[i].id
  }

  /** How many units a pull of n by this worker gets. */
  function Amount<O>(c: Config, u: seq<Status<O>>, worker: string, n: int): nat {
    var room := c.limit - |Held(u, worker)|;
    var wanted := if n < room then n else room;
    var m := if wanted < |AllWaiting(u)| then wanted else |AllWaiting(u)|;
    if m < 0 then 0 else m
  }

  function Lend<O>(c: Config, u: seq<Status<O>>, issued: nat, worker: string, m: nat, now: int): (v: seq<Status<O>>)
    ensures |v| == |u|
  {
    seq(|u|, i requires 0 <= i < |u| =>
      if u[i].Pending? && Rank(u, i) < m then Leased(issued + 1 + Rank(u, i), worker, now + c.ttl) else u[i])
  }

  function Beat<O>(c: Config, x: Status<O>, worker: string, which: Option<nat>, now: int): Status<O> {
    if x.Leased? && x.worker == worker && (which.None? || x.id == which.value)
    then x.(deadline := now + c.ttl) else x
  }

  function Finish<O>(x: Status<O>, id: nat, output: O): Status<O> {
    if x.Leased? && x.id == id then Done(output) else x
  }

  ghost predicate Live<O>(u: seq<Status<O>>, id: nat) {
    exists i :: 0 <= i < |u| && u[i].Leased? && u[i].id == id
  }

  /** One call: the state after it and what the caller is told. */
  ghost function Step<O>(c: Config, s: Sched<O>, t: Timed<O>): (r: (Sched<O>, Reply))
    ensures |r.0.units| == |s.units|
  {
    match t.call
    case Lease(worker, n) =>
      var u := Reclaim(s.units, t.now);
      var m := Amount(c, u, worker, n);
      (Sched(Lend(c, u, s.issued, worker, m, t.now), s.issued + m),
       Granted(seq(m, j requires 0 <= j < m => Grant(s.issued + 1 + j, AllWaiting(u)[j]))))
    case Complete(id, output) =>
      (s.(units := seq(|s.units|, i requires 0 <= i < |s.units| => Finish(s.units[i], id, output))),
       Accepted(Live(s.units, id)))
    case Heartbeat(worker, which) =>
      (s.(units := seq(|s.units|, i requires 0 <= i < |s.units| => Beat(c, s.units[i], worker, which, t.now))),
       Beaten)
    case Drained =>
      var u := Reclaim(s.units, t.now);
      (s.(units := u), IsDrained(forall i :: 0 <= i < |u| ==> u[i].Done?))
  }

  // ----- the invariant -----

  ghost predicate IdsOk<O>(u: seq<Status<O>>, issued: nat) {
    && (forall i :: 0 <= i < |u| && u[i].Leased? ==> 1 <= u[i].id <= issued)
    && (forall i, j :: 0 <= i < j < |u| && u[i].Leased? && u[j].Leased? ==> u[i].id != u[j].id)
  }

  /** No lease id stands for two units, and no worker is over the limiter. */
  ghost predicate Inv<O>(c: Config, s: Sched<O>) {
    && IdsOk(s.units, s.issued)
    && (forall w :: |Held(s.units, w)| <= if c.limit < 0 then 0 else c.limit)
  }

  lemma FreshInv<O>(c: Config, n: nat)
    ensures Inv(c, Fresh<O>(n))
  {
  }

  /** Replacing statuses so that leases only disappear or keep id and worker keeps the invariant. */
  lemma ShrinkInv<O>(c: Config, s: Sched<O>, v: seq<Status<O>>)
    requires Inv(c, s) && |v| == |s.units|
    requires forall i :: 0 <= i < |v| && v[i].Leased? ==>
      s.units[i].Leased? && v[i].id == s.units[i].id && v[i].worker == s.units[i].worker
    ensures Inv(c, s.(units := v))
  {
    forall w ensures |Held(v, w)| <= if c.limit < 0 then 0 else c.limit {
      assert Held(v, w) <= Held(s.units, w);
      SubsetSize(Held(v, w), Held(s.units, w));
    }
  }

  /** The ids issued + 1 .. issued + m. */
  function NewIds(issued: nat, m: nat): (r: set<nat>)
    ensures forall x :: x in r <==> issued < x <= issued + m
    ensures |r| == m
  {
    if m == 0 then {} else NewIds(issued, m - 1) + {issued + m}
  }

  /** The leases held after lending: the worker gains exactly the new ids, nobody else changes. */
  lemma LendHeld<O>(c: Config, u: seq<Status<O>>, issued: nat, worker: string, m: nat, now: int, w: string)
    requires m <= |AllWaiting(u)|
    ensures Held(Lend(c, u, issued, worker, m, now), w)
         == Held(u, w) + if w == worker then NewIds(issued, m) else {}
  {
    var v := Lend(c, u, issued, worker, m, now);
    forall x | x in Held(u, w)
      ensures x in Held(v, w)
    {
      var i :| 0 <= i < |u| && u[i].Leased? && u[i].worker == w && u[i].id == x;
      assert v[i] == u[i];
    }
    forall x | x in NewIds(issued, m) && w == worker
      ensures x in Held(v, w)
    {
      LentUnit(c, u, issued, worker, m, now, x - issued - 1);
    }
    forall x | x in Held(v, w) && x !in Held(u, w)
      ensures w == worker && x in NewIds(issued, m)
    {
      var i :| 0 <= i < |v| && v[i].Leased? && v[i].worker == w && v[i].id == x;
      assert u[i].Pending?;
    }
  }

  /** The j-th unit lent out is the j-th smallest waiting one and carries the j-th new id. */
  lemma LentUnit<O>(c: Config, u: seq<Status<O>>, issued: nat, worker: string, m: nat, now: int, j: nat)
    requires j < m <= |AllWaiting(u)|
    ensures Lend(c, u, issued, worker, m, now)[AllWaiting(u)[j]] == Leased(issued + 1 + j, worker, now + c.ttl)
  {
    WaitingRank(u, j);
  }

  lemma RankOrdered<O>(u: seq<Status<O>>, i: nat, j: nat)
    requires i < j < |u| && u[i].Pending? && u[j].Pending?
    ensures Rank(u, i) < Rank(u, j)
  {
    RankLocates(u, i, j);
  }

  lemma LendIds<O>(c: Config, u: seq<Status<O>>, issued: nat, worker: string, m: nat, now: int)
    requires IdsOk(u, issued)
    ensures IdsOk(Lend(c, u, issued, worker, m, now), issued + m)
  {
    var v := Lend(c, u, issued, worker, m, now);
    forall i, j | 0 <= i < j < |v| && v[i].Leased? && v[j].Leased?
      ensures v[i].id != v[j].id
    {
      if u[i].Pending? && u[j].Pending? {
        RankOrdered(u, i, j);
      }
    }
  }

  lemma LendInv<O>(c: Config, s: Sched<O>, worker: string, n: int, now: int)
    requires Inv(c, s)
    ensures var m := Amount(c, s.units, worker, n);
      Inv(c, Sched(Lend(c, s.units, s.issued, worker, m, now), s.issued + m))
  {
    var u := s.units;
    var m := Amount(c, u, worker, n);
    var v := Lend(c, u, s.issued, worker, m, now);
    LendIds(c, u, s.issued, worker, m, now);
    forall w ensures |Held(v, w)| <= if c.limit < 0 then 0 else c.limit {
      LendHeld(c, u, s.issued, worker, m, now, w);
      if w == worker && m > 0 {
        assert Held(u, w) !! NewIds(s.issued, m);
        assert |Held(v, w)| == |Held(u, w)| + m;
      }
    }
  }

  /** Every call keeps the invariant, whoever calls and whatever the clock reads. */
  lemma StepInv<O>(c: Config, s: Sched<O>, t: Timed<O>)
    requires Inv(c, s)
    ensures Inv(c, Step(c, s, t).0)
  {
    var s' := Step(c, s, t).0;
    match t.call
    case Lease(worker, n) =>
      var r := s.(units := Reclaim(s.units, t.now));
      ShrinkInv(c, s, r.units);
      LendInv(c, r, worker, n, t.now);
    case Complete(id, output) =>
      ShrinkInv(c, s, s'.units);
    case Heartbeat(worker, which) =>
      ShrinkInv(c, s, s'.units);
    case Drained =>
      ShrinkInv(c, s, s'.units);
  }
}
