/** What the scheduler's five fields always look like, read off them directly. */
module LeaseFields {
  import opened Orders
  import opened LeaseModel
  import opened LeaseScheduler

  ghost predicate InPending<W, O>(f: Fields<W, O>, i: nat) {
    exists j :: 0 <= j < |f.pending| && f.pending[j].index == i
  }

  ghost predicate OnLease<W, O>(f: Fields<W, O>, i: nat) {
    exists id :: id in f.leased && f.leased[id].index == i
  }

  /** The ids leased to a worker. */
  ghost function LeasedTo<W>(leased: map<nat, Record<W>>, w: string): set<nat> {
    set id | id in leased && leased[id].worker == w
  }

  /** Every unit is in exactly one place. */
  ghost predicate InOnePlace<W, O>(f: Fields<W, O>, i: nat) {
    || (InPending(f, i) && !OnLease(f, i) && i !in f.done)
    || (!InPending(f, i) && OnLease(f, i) && i !in f.done)
    || (!InPending(f, i) && !OnLease(f, i) && i in f.done)
  }

  /** Every index is waiting, leased or done, and only one of these; the waiting ones are listed once, in
      ascending order, with their own work; no two leases are for one index; and each worker's in-flight
      set is exactly the ids leased to it, no more than the limit. */
  lemma Partition<W, O>(c: Config, work: seq<W>, s: Sched<O>, f: Fields<W, O>)
    requires Spells(f, work, s) && Inv(c, s)
    ensures forall i: nat :: i < |work| ==> InOnePlace(f, i)
    ensures ByIndex(f.pending)
    ensures forall j :: 0 <= j < |f.pending| ==>
      f.pending[j].index < |work| && f.pending[j].value == work[f.pending[j].index]
    ensures forall id, id' :: id in f.leased && id' in f.leased && f.leased[id].index == f.leased[id'].index ==>
      id == id'
    ensures forall id :: id in f.leased ==> 1 <= id <= f.issued && f.leased[id].index < |work|
    ensures forall w ::
      Of(f.inflight, w) == LeasedTo(f.leased, w) && |Of(f.inflight, w)| <= if c.limit < 0 then 0 else c.limit
  {
    hide Waiting, Held;
    WaitingUnits(work, s.units, f.pending);
    PoolSorted(work, s.units, f.pending);
    forall i: nat | i < |work|
      ensures InOnePlace(f, i)
    {
      PlaceOf(work, s, f, i);
    }
    forall w
      ensures Of(f.inflight, w) == LeasedTo(f.leased, w)
    {
      HeldIsLeasedTo(work, s, f, w);
    }
  }

  lemma PlaceOf<W, O>(work: seq<W>, s: Sched<O>, f: Fields<W, O>, i: nat)
    requires Spells(f, work, s) && i < |work|
    ensures InPending(f, i) <==> s.units[i].Pending?
    ensures OnLease(f, i) <==> s.units[i].Leased?
    ensures i in f.done <==> s.units[i].Done?
  {
    hide Waiting, Held;
    WaitingUnits(work, s.units, f.pending);
    if s.units[i].Pending? {
      RankLocates(s.units, i, |s.units|);
      assert f.pending[Rank(s.units, i)].index == i;
    } else if s.units[i].Leased? {
      assert s.units[i].id in f.leased;
    }
  }

  lemma HeldIsLeasedTo<W, O>(work: seq<W>, s: Sched<O>, f: Fields<W, O>, w: string)
    requires Spells(f, work, s)
    ensures Of(f.inflight, w) == LeasedTo(f.leased, w)
  {
    assert Held(s.units, w) == Of(f.inflight, w);
    forall id | id in LeasedTo(f.leased, w)
      ensures id in Held(s.units, w)
    {
      assert s.units[f.leased[id].index].Leased?;
    }
  }
}
