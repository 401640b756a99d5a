/** Whole runs of the quota ledger: admission checks, charges and releases as separate calls in any order,
    from any ledger. */
module AdmissionRuns {
  import opened Options
  import opened Admission

  datatype Job = Job(key: string, needsGpu: bool, cost: int)

  /** A job is checked, or charged; or a subject releases a job, with or without a GPU. */
  datatype Event = Check(job: Job) | Charge(job: Job) | Release(key: string, needsGpu: bool)

  /** The books, and the jobs that were charged and are not yet released. */
  datatype Ledger = Ledger(book: Book, running: seq<Job>)

  predicate Like(j: Job, key: string, needsGpu: bool) {
    j.key == key && j.needsGpu == needsGpu
  }

  /** The jobs without the first one a release can be about, if there is one. */
  function Without(running: seq<Job>, key: string, needsGpu: bool): seq<Job> {
    if running == [] then []
    else if Like(running[0], key, needsGpu) then running[1..]
    else [running[0]] + Without(running[1..], key, needsGpu)
  }

  function Next(l: Ledger, e: Event): Ledger {
    match e
    case Check(j) => Ledger(l.book[j.key := UsageOf(l.book, j.key)], l.running)
    case Charge(j) =>
      Ledger(l.book[j.key := AfterCharge(UsageOf(l.book, j.key), j.needsGpu, j.cost)], l.running + [j])
    case Release(key, needsGpu) =>
      Ledger(l.book[key := AfterRelease(UsageOf(l.book, key), needsGpu)], Without(l.running, key, needsGpu))
  }

  function Run(l: Ledger, es: seq<Event>): Ledger {
    if es == [] then l else Next(Run(l, es[..|es| - 1]), es[|es| - 1])
  }

  lemma RunSnoc(l: Ledger, es: seq<Event>, e: Event)
    ensures Run(l, es + [e]) == Next(Run(l, es), e)
  {
    assert (es + [e])[..|es|] == es;
  }

  predicate ChargesTo(e: Event, key: string) {
    e.Charge? && e.job.key == key
  }

  predicate ReleasesOf(e: Event, key: string) {
    e.Release? && e.key == key
  }

  // ----- what is running -----

  function RunningFor(running: seq<Job>, key: string): nat {
    if running == [] then 0 else RunningFor(running[1..], key) + if running[0].key == key then 1 else 0
  }

  function GpusFor(running: seq<Job>, key: string): nat {
    if running == [] then 0
    else GpusFor(running[1..], key) + if running[0].key == key && running[0].needsGpu then 1 else 0
  }

  /** A release of this kind can be about one of the running jobs. */
  predicate Matches(running: seq<Job>, key: string, needsGpu: bool) {
    exists j :: j in running && Like(j, key, needsGpu)
  }

  lemma {:induction false} CountSnoc(running: seq<Job>, j: Job, key: string)
    ensures RunningFor(running + [j], key) == RunningFor(running, key) + if j.key == key then 1 else 0
    ensures GpusFor(running + [j], key) == GpusFor(running, key) + if j.key == key && j.needsGpu then 1 else 0
  {
    if running == [] {
      assert running + [j] == [j];
    } else {
      assert (running + [j])[1..] == running[1..] + [j];
      CountSnoc(running[1..], j, key);
    }
  }

  /** Taking a job out takes it off the counts of its subject, and off no other's. */
  lemma {:induction false} CountWithout(running: seq<Job>, key: string, needsGpu: bool, k: string)
    ensures var rest := Without(running, key, needsGpu);
      var one := if Matches(running, key, needsGpu) && k == key then 1 else 0;
      RunningFor(rest, k) == RunningFor(running, k) - one
      && GpusFor(rest, k) == GpusFor(running, k) - (if needsGpu then one else 0)
  {
    if running == [] {
    } else {
      assert running == [running[0]] + running[1..];
      assert Matches(running, key, needsGpu)
        <==> Like(running[0], key, needsGpu) || Matches(running[1..], key, needsGpu);
      CountWithout(running[1..], key, needsGpu, k);
    }
  }

  /** A subject with nothing running has no GPU running either, and nothing a release could be about. */
  lemma {:induction false} NothingRunning(running: seq<Job>, key: string)
    ensures GpusFor(running, key) <= RunningFor(running, key)
    ensures RunningFor(running, key) == 0 <==> forall j :: j in running ==> j.key != key
  {
    if running == [] {
    } else {
      assert running == [running[0]] + running[1..];
      NothingRunning(running[1..], key);
    }
  }

  // ----- the counters -----

  /** The counters say exactly what is running. */
  ghost predicate Counted(l: Ledger, key: string) {
    UsageOf(l.book, key).concurrent == RunningFor(l.running, key) && UsageOf(l.book, key).gpu == GpusFor(l.running, key)
  }

  /** This event is no release of the subject's that misses: one made while something runs, but nothing it can be
      about. */
  predicate Harmless(l: Ledger, e: Event, key: string) {
    ReleasesOf(e, key) ==> Matches(l.running, key, e.needsGpu) || RunningFor(l.running, key) == 0
  }

  /** Counters that are right stay right exactly through the events that are harmless. */
  lemma CountedIffHarmless(l: Ledger, e: Event, key: string)
    requires Counted(l, key)
    ensures Counted(Next(l, e), key) <==> Harmless(l, e, key)
  {
    match e
    case Check(j) =>
    case Charge(j) =>
      CountSnoc(l.running, j, key);
    case Release(k, needsGpu) =>
      CountWithout(l.running, k, needsGpu, key);
      NothingRunning(l.running, key);
  }

  ghost predicate AllHarmless(l: Ledger, es: seq<Event>, key: string) {
    if es == [] then true
    else AllHarmless(l, es[..|es| - 1], key) && Harmless(Run(l, es[..|es| - 1]), es[|es| - 1], key)
  }

  /** From any ledger whose counters are right they are right after every run without a release that misses,
      whatever else is checked, charged and released in whatever order. */
  lemma {:induction false} CountsAreRunning(l: Ledger, es: seq<Event>, key: string)
    requires Counted(l, key) && AllHarmless(l, es, key)
    ensures Counted(Run(l, es), key)
  {
    if es == [] {
    } else {
      CountsAreRunning(l, es[..|es| - 1], key);
      CountedIffHarmless(Run(l, es[..|es| - 1]), es[|es| - 1], key);
    }
  }

  /** So the clamps at zero never fire for a release that has a job to be about: it takes off exactly what the
      charge put on. */
  lemma ClampsNeverFire(l: Ledger, es: seq<Event>, key: string, needsGpu: bool)
    requires Counted(l, key) && AllHarmless(l, es, key) && Matches(Run(l, es).running, key, needsGpu)
    ensures var u := UsageOf(Run(l, es).book, key);
      AfterRelease(u, needsGpu) == Usage(u.concurrent - 1, u.gpu - Gpus(needsGpu), u.cost)
  {
    CountsAreRunning(l, es, key);
    CountWithout(Run(l, es).running, key, needsGpu, key);
  }

  // ----- when the quota is kept -----

  predicate NonNegative(u: Usage) {
    u.concurrent >= 0 && u.gpu >= 0
  }

  lemma CountedIsNonNegative(l: Ledger, key: string)
    requires Counted(l, key)
    ensures NonNegative(UsageOf(l.book, key))
  {
  }

  predicate WithinQuota(q: Quota, u: Usage) {
    u.concurrent <= q.maxConcurrent && u.gpu <= q.gpuMax && u.cost <= q.costBudget
  }

  /** One more job still fits. */
  predicate Fits(q: Quota, u: Usage, j: Job) {
    WithinQuota(q, AfterCharge(u, j.needsGpu, j.cost))
  }

  function UsageAt(l: Ledger, es: seq<Event>, n: nat, key: string): Usage
    requires n <= |es|
  {
    UsageOf(Run(l, es[..n]).book, key)
  }

  /** The subject is within all three limits after every prefix of the run. */
  ghost predicate Kept(plan: Plan, l: Ledger, es: seq<Event>, key: string) {
    forall n :: 0 <= n <= |es| ==> WithinQuota(QuotaFor(plan, key), UsageAt(l, es, n, key))
  }

  /** Every charge to the subject would still be admitted when it is made. */
  ghost predicate StillAdmitted(plan: Plan, l: Ledger, es: seq<Event>, key: string) {
    forall n :: 0 <= n < |es| && ChargesTo(es[n], key) ==>
      Admits(plan, Run(l, es[..n]).book, key, es[n].job.needsGpu, es[n].job.cost)
  }

  lemma AdmitsIffFits(plan: Plan, book: Book, j: Job)
    ensures Admits(plan, book, j.key, j.needsGpu, j.cost) <==> Fits(QuotaFor(plan, j.key), UsageOf(book, j.key), j)
  {
    ExceededExactly(QuotaFor(plan, j.key), UsageOf(book, j.key), j.needsGpu, j.cost);
    hide Exceeded, QuotaFor;
  }

  lemma {:induction false} StaysNonNegative(l: Ledger, es: seq<Event>, key: string)
    requires NonNegative(UsageOf(l.book, key))
    ensures NonNegative(UsageOf(Run(l, es).book, key))
  {
    if es == [] {
    } else {
      StaysNonNegative(l, es[..|es| - 1], key);
    }
  }

  /** One event keeps a subject within quota exactly when it is no charge to it, or one that is still admitted. */
  lemma StepKeepsIff(plan: Plan, l: Ledger, e: Event, key: string)
    requires NonNegative(UsageOf(l.book, key)) && WithinQuota(QuotaFor(plan, key), UsageOf(l.book, key))
    ensures WithinQuota(QuotaFor(plan, key), UsageOf(Next(l, e).book, key))
      <==> (ChargesTo(e, key) ==> Admits(plan, l.book, key, e.job.needsGpu, e.job.cost))
  {
    if ChargesTo(e, key) {
      AdmitsIffFits(plan, l.book, e.job);
    }
    hide Admits, QuotaFor;
  }

  lemma UsageAtPrefix(l: Ledger, es: seq<Event>, t: nat, n: nat, key: string)
    requires n <= t <= |es|
    ensures es[..t][..n] == es[..n]
    ensures UsageAt(l, es[..t], n, key) == UsageAt(l, es, n, key)
  {
    assert es[..t][..n] == es[..n];
  }

  lemma KeptBefore(plan: Plan, l: Ledger, es: seq<Event>, key: string)
    requires es != []
    ensures Kept(plan, l, es, key)
      <==> Kept(plan, l, es[..|es| - 1], key) && WithinQuota(QuotaFor(plan, key), UsageOf(Run(l, es).book, key))
  {
    var before := es[..|es| - 1];
    assert es[..|es|] == es;
    assert UsageAt(l, es, |es|, key) == UsageOf(Run(l, es).book, key);
    hide WithinQuota, QuotaFor, UsageAt;
    forall n | 0 <= n <= |before|
      ensures UsageAt(l, before, n, key) == UsageAt(l, es, n, key)
    {
      UsageAtPrefix(l, es, |before|, n, key);
    }
  }

  lemma AdmittedBefore(plan: Plan, l: Ledger, es: seq<Event>, key: string)
    requires es != []
    ensures var before, e := es[..|es| - 1], es[|es| - 1];
      StillAdmitted(plan, l, es, key)
      <==> StillAdmitted(plan, l, before, key)
           && (ChargesTo(e, key) ==> Admits(plan, Run(l, before).book, key, e.job.needsGpu, e.job.cost))
  {
    hide Admits, Run;
    var before := es[..|es| - 1];
    forall n | 0 <= n < |before|
      ensures before[..n] == es[..n] && before[n] == es[n]
    {
    }
  }

  /** Exactly when a run keeps a quota: from a ledger within it, usage is within all three limits after every
      prefix if and only if every charge to the subject would still be admitted when it is made, whatever the
      checks said before, and however the releases go. */
  lemma {:induction false} KeptIffStillAdmitted(plan: Plan, l: Ledger, es: seq<Event>, key: string)
    requires NonNegative(UsageOf(l.book, key)) && WithinQuota(QuotaFor(plan, key), UsageOf(l.book, key))
    ensures Kept(plan, l, es, key) <==> StillAdmitted(plan, l, es, key)
  {
    if es == [] {
      assert forall n :: 0 <= n <= |es| ==> es[..n] == [];
    } else {
      var before, e := es[..|es| - 1], es[|es| - 1];
      KeptIffStillAdmitted(plan, l, before, key);
      KeptBefore(plan, l, es, key);
      AdmittedBefore(plan, l, es, key);
      StaysNonNegative(l, before, key);
      assert before[..|before|] == before;
      assert Kept(plan, l, before, key) ==> WithinQuota(QuotaFor(plan, key), UsageAt(l, before, |before|, key));
      if WithinQuota(QuotaFor(plan, key), UsageOf(Run(l, before).book, key)) {
        StepKeepsIff(plan, Run(l, before), e, key);
      }
      hide Kept, StillAdmitted, Admits, QuotaFor, Next;
    }
  }

  // ----- what was charged and released since a check -----

  function Plus(a: Usage, b: Usage): Usage {
    Usage(a.concurrent + b.concurrent, a.gpu + b.gpu, a.cost + b.cost)
  }

  /** What one event changes for a subject. */
  function Change(e: Event, key: string): Usage {
    if ChargesTo(e, key) then Usage(1, Gpus(e.job.needsGpu), e.job.cost)
    else if ReleasesOf(e, key) then Usage(-1, -Gpus(e.needsGpu), 0)
    else Usage(0, 0, 0)
  }

  /** What a stretch of events charges to a subject, less what it releases. */
  function Net(es: seq<Event>, key: string): Usage {
    if es == [] then Usage(0, 0, 0) else Plus(Net(es[..|es| - 1], key), Change(es[|es| - 1], key))
  }

  /** Every release of the subject's has a running job to be about. */
  ghost predicate Matched(l: Ledger, es: seq<Event>, key: string) {
    forall n :: 0 <= n < |es| && ReleasesOf(es[n], key) ==> Matches(Run(l, es[..n]).running, key, es[n].needsGpu)
  }

  lemma MatchedBefore(l: Ledger, es: seq<Event>, key: string)
    requires es != [] && Matched(l, es, key)
    ensures Matched(l, es[..|es| - 1], key)
    ensures ReleasesOf(es[|es| - 1], key) ==> Matches(Run(l, es[..|es| - 1]).running, key, es[|es| - 1].needsGpu)
  {
    hide Run, Matches;
    var before := es[..|es| - 1];
    forall n | 0 <= n < |before|
      ensures before[..n] == es[..n]
    {
    }
  }

  lemma {:induction false} MatchedIsHarmless(l: Ledger, es: seq<Event>, key: string)
    requires Matched(l, es, key)
    ensures AllHarmless(l, es, key)
  {
    if es == [] {
    } else {
      MatchedBefore(l, es, key);
      hide Matched, Matches;
      MatchedIsHarmless(l, es[..|es| - 1], key);
    }
  }

  lemma StepChanges(l: Ledger, e: Event, key: string)
    requires Counted(l, key) && (ReleasesOf(e, key) ==> Matches(l.running, key, e.needsGpu))
    ensures UsageOf(Next(l, e).book, key) == Plus(UsageOf(l.book, key), Change(e, key))
  {
    hide Without, Matches, RunningFor, GpusFor;
    if ReleasesOf(e, key) {
      CountWithout(l.running, key, e.needsGpu, key);
    }
  }

  lemma NetSnoc(es: seq<Event>, s: nat, key: string)
    requires s < |es|
    ensures Net(es[s..], key) == Plus(Net(es[..|es| - 1][s..], key), Change(es[|es| - 1], key))
  {
    assert es[s..][..|es[s..]| - 1] == es[..|es| - 1][s..];
    hide Plus, Change;
  }

  lemma NetNone(l: Ledger, es: seq<Event>, key: string)
    ensures UsageOf(Run(l, es).book, key) == Plus(UsageAt(l, es, |es|, key), Net(es[|es|..], key))
  {
    assert es[..|es|] == es;
    hide Run, UsageOf;
  }

  lemma PlusAssociates(a: Usage, b: Usage, c: Usage)
    ensures Plus(Plus(a, b), c) == Plus(a, Plus(b, c))
  {
  }

  lemma LastChanges(l: Ledger, es: seq<Event>, key: string)
    requires es != [] && Counted(l, key) && Matched(l, es, key)
    ensures UsageOf(Run(l, es).book, key)
      == Plus(UsageOf(Run(l, es[..|es| - 1]).book, key), Change(es[|es| - 1], key))
  {
    var before, e := es[..|es| - 1], es[|es| - 1];
    assert Run(l, es) == Next(Run(l, before), e);
    hide *;
    MatchedBefore(l, es, key);
    MatchedIsHarmless(l, before, key);
    CountsAreRunning(l, before, key);
    StepChanges(Run(l, before), e, key);
  }

  /** With releases that match, usage moves by exactly the net of what is charged and released. */
  lemma {:induction false} UsageIsNet(l: Ledger, es: seq<Event>, s: nat, key: string)
    requires s <= |es| && Counted(l, key) && Matched(l, es, key)
    ensures UsageOf(Run(l, es).book, key) == Plus(UsageAt(l, es, s, key), Net(es[s..], key))
  {
    hide *;
    if s == |es| {
      NetNone(l, es, key);
    } else {
      var before := es[..|es| - 1];
      MatchedBefore(l, es, key);
      UsageIsNet(l, before, s, key);
      LastChanges(l, es, key);
      UsageAtPrefix(l, es, |before|, s, key);
      NetSnoc(es, s, key);
      PlusAssociates(UsageAt(l, es, s, key), Net(before[s..], key), Change(es[|es| - 1], key));
    }
  }

  lemma MatchedPrefix(l: Ledger, es: seq<Event>, t: nat, key: string)
    requires t <= |es| && Matched(l, es, key)
    ensures Matched(l, es[..t], key)
  {
    hide Run, Matches;
    forall n | 0 <= n < t
      ensures es[..t][..n] == es[..n]
    {
    }
  }

  /** For each charge, what its check saw leaves room on all three axes for what was charged since less what
      was released since, and for the job itself. */
  ghost predicate RoomSinceCheck(plan: Plan, l: Ledger, es: seq<Event>, key: string, checked: nat -> nat)
    requires forall t :: checked(t) <= t
  {
    forall t :: 0 <= t < |es| && ChargesTo(es[t], key) ==>
      Fits(QuotaFor(plan, key), Plus(UsageAt(l, es, checked(t), key), Net(es[checked(t)..t], key)), es[t].job)
  }

  /** What was charged and released since the check tells what admission would say at the charge. */
  lemma ChargeRoom(plan: Plan, l: Ledger, es: seq<Event>, key: string, s: nat, t: nat)
    requires s <= t < |es| && ChargesTo(es[t], key) && Counted(l, key) && Matched(l, es, key)
    ensures Admits(plan, Run(l, es[..t]).book, key, es[t].job.needsGpu, es[t].job.cost)
      <==> Fits(QuotaFor(plan, key), Plus(UsageAt(l, es, s, key), Net(es[s..t], key)), es[t].job)
  {
    hide Admits, Fits, Run, Net, QuotaFor, Counted, Matched, UsageAt, UsageOf, Plus;
    MatchedPrefix(l, es, t, key);
    UsageIsNet(l, es[..t], s, key);
    UsageAtPrefix(l, es, t, s, key);
    assert es[..t][s..] == es[s..t];
    AdmitsIffFits(plan, Run(l, es[..t]).book, es[t].job);
  }

  /** Exactly when checks and charges as separate calls keep a quota. Let `checked` say for each charge where its
      check was made, or any earlier time. From a ledger within quota whose counters are right, and with
      releases that match, usage is within all three limits after every prefix if and only if, for each charge
      to the subject, the usage its check saw, the net of what was charged and released since, and the job
      together are within the limits. */
  lemma KeptIffRoomSinceCheck(plan: Plan, l: Ledger, es: seq<Event>, key: string, checked: nat -> nat)
    requires forall t :: checked(t) <= t
    requires Counted(l, key) && Matched(l, es, key) && WithinQuota(QuotaFor(plan, key), UsageOf(l.book, key))
    ensures Kept(plan, l, es, key) <==> RoomSinceCheck(plan, l, es, key, checked)
  {
    hide Admits, Fits, Kept, Run, Net, QuotaFor, Counted, Matched, UsageAt, Plus;
    CountedIsNonNegative(l, key);
    KeptIffStillAdmitted(plan, l, es, key);
    forall t | 0 <= t < |es| && ChargesTo(es[t], key)
      ensures Admits(plan, Run(l, es[..t]).book, key, es[t].job.needsGpu, es[t].job.cost)
        <==> Fits(QuotaFor(plan, key), Plus(UsageAt(l, es, checked(t), key), Net(es[checked(t)..t], key)), es[t].job)
    {
      ChargeRoom(plan, l, es, key, checked(t), t);
    }
  }

  // ----- two corollaries: a check nothing overtakes, and a check something overtakes -----

  function AtLeastZero(x: int): int {
    if x < 0 then 0 else x
  }

  ghost predicate WithinLimits(plan: Plan, book: Book, key: string) {
    var u, q := UsageOf(book, key), QuotaFor(plan, key);
    && u.concurrent <= AtLeastZero(q.maxConcurrent)
    && u.gpu <= AtLeastZero(q.gpuMax)
    && u.cost <= AtLeastZero(q.costBudget)
  }

  /** Event s is an admitted check of this very job, and nothing was charged to its subject since. */
  ghost predicate Clears(plan: Plan, l: Ledger, es: seq<Event>, s: nat, j: Job) {
    && s < |es| && es[s] == Check(j)
    && Admits(plan, Run(l, es[..s]).book, j.key, j.needsGpu, j.cost)
    && forall k :: s < k < |es| ==> !ChargesTo(es[k], j.key)
  }

  /** Every charge follows an admitted check of the same subject, workload and cost that no other charge to that
      subject has overtaken; other calls may come between. */
  ghost predicate Guarded(plan: Plan, l: Ledger, es: seq<Event>) {
    if es == [] then true
    else
      var before, e := es[..|es| - 1], es[|es| - 1];
      Guarded(plan, l, before) && (e.Charge? ==> exists s: nat :: Clears(plan, l, before, s, e.job))
  }

  /** Without charges a subject's usage only falls, and its spend stays. */
  lemma {:induction false} OnlyFalls(l: Ledger, es: seq<Event>, s: nat, key: string)
    requires s <= |es| && NonNegative(UsageOf(l.book, key)) && forall k :: s <= k < |es| ==> !ChargesTo(es[k], key)
    ensures var u, v := UsageAt(l, es, s, key), UsageOf(Run(l, es).book, key);
      v.concurrent <= u.concurrent && v.gpu <= u.gpu && v.cost == u.cost
  {
    if s == |es| {
      assert es[..s] == es;
    } else {
      var before := es[..|es| - 1];
      OnlyFalls(l, before, s, key);
      assert before[..s] == es[..s];
      StaysNonNegative(l, before, key);
    }
  }

  /** A check nothing overtook is as good as one made now. */
  lemma ClearedIsAdmitted(plan: Plan, l: Ledger, es: seq<Event>, s: nat, j: Job)
    requires Clears(plan, l, es, s, j) && NonNegative(UsageOf(l.book, j.key))
    ensures Admits(plan, Run(l, es).book, j.key, j.needsGpu, j.cost)
  {
    OnlyFalls(l, es, s, j.key);
    AdmitsIffFits(plan, Run(l, es[..s]).book, j);
    AdmitsIffFits(plan, Run(l, es).book, j);
    hide Admits, Run, QuotaFor;
  }

  /** In every guarded run the books balance for every subject, whatever the quotas: no limit is passed, and the
      counters are what is running unless a release missed. */
  lemma {:induction false} BooksBalance(plan: Plan, l: Ledger, es: seq<Event>, key: string)
    requires Guarded(plan, l, es) && Counted(l, key) && WithinLimits(plan, l.book, key)
    ensures AllHarmless(l, es, key) ==> Counted(Run(l, es), key)
    ensures WithinLimits(plan, Run(l, es).book, key)
  {
    if AllHarmless(l, es, key) {
      CountsAreRunning(l, es, key);
    }
    GuardedWithin(plan, l, es, key);
  }

  lemma {:induction false} GuardedWithin(plan: Plan, l: Ledger, es: seq<Event>, key: string)
    requires Guarded(plan, l, es) && NonNegative(UsageOf(l.book, key)) && WithinLimits(plan, l.book, key)
    ensures WithinLimits(plan, Run(l, es).book, key)
  {
    if es == [] {
    } else {
      var before, e := es[..|es| - 1], es[|es| - 1];
      GuardedWithin(plan, l, before, key);
      StaysNonNegative(l, before, key);
      if ChargesTo(e, key) {
        var s: nat :| Clears(plan, l, before, s, e.job);
        ClearedIsAdmitted(plan, l, before, s, e.job);
        AdmitsIffFits(plan, Run(l, before).book, e.job);
      }
      hide Guarded, Admits, QuotaFor;
    }
  }

  lemma JustCharged(plan: Plan, l: Ledger, es: seq<Event>, j: Job)
    ensures forall s: nat :: !Clears(plan, l, es + [Charge(j)], s, j)
    ensures !Guarded(plan, l, es + [Charge(j)] + [Charge(j)])
  {
    var once := es + [Charge(j)];
    forall s: nat ensures !Clears(plan, l, once, s, j) {
      assert once[|es|].Charge?;
    }
    hide Clears;
    assert (once + [Charge(j)])[..|once|] == once && (once + [Charge(j)])[|once|] == Charge(j);
  }

  /** Two jobs checked one after the other and then both charged: both are admitted, the run is not guarded, and it
      passes the quota exactly when one of the three axes has no room left for the job twice. */
  lemma OvertakenCheck(plan: Plan, l: Ledger, es: seq<Event>, j: Job)
    requires Admits(plan, Run(l, es).book, j.key, j.needsGpu, j.cost)
    ensures var once := es + [Check(j)];
      var all := once + [Check(j)] + [Charge(j)] + [Charge(j)];
      var u, q := UsageOf(Run(l, es).book, j.key), QuotaFor(plan, j.key);
      && Admits(plan, Run(l, once).book, j.key, j.needsGpu, j.cost)
      && !Guarded(plan, l, all)
      && (WithinQuota(q, UsageOf(Run(l, all).book, j.key))
          <==> && u.concurrent + 2 <= q.maxConcurrent
               && u.gpu + 2 * Gpus(j.needsGpu) <= q.gpuMax
               && u.cost + 2 * j.cost <= q.costBudget)
  {
    var once := es + [Check(j)];
    RunSnoc(l, es, Check(j));
    RunSnoc(l, once, Check(j));
    RunSnoc(l, once + [Check(j)], Charge(j));
    RunSnoc(l, once + [Check(j)] + [Charge(j)], Charge(j));
    JustCharged(plan, l, once + [Check(j)], j);
    hide Run, Guarded, Clears, Exceeded, QuotaFor;
  }

  // ----- what a run leaves alone -----

  /** A subject on the free tier, with no override of its GPUs, never has a GPU job running in a guarded run. */
  lemma {:induction false} FreeTierHasNoGpu(plan: Plan, l: Ledger, es: seq<Event>, key: string)
    requires Guarded(plan, l, es) && NonNegative(UsageOf(l.book, key)) && GpusFor(l.running, key) == 0
    requires key in plan.tiers && plan.tiers[key] == "free"
    requires key in plan.quotas ==> plan.quotas[key].gpuMax.None?
    ensures GpusFor(Run(l, es).running, key) == 0
  {
    if es == [] {
    } else {
      var before, e := es[..|es| - 1], es[|es| - 1];
      var was := Run(l, before);
      FreeTierHasNoGpu(plan, l, before, key);
      match e
      case Check(j) =>
      case Charge(j) =>
        CountSnoc(was.running, j, key);
        if j.key == key {
          var s: nat :| Clears(plan, l, before, s, j);
          NoGpuAdmitted(plan, l, before, s, j);
        }
      case Release(k, needsGpu) =>
        CountWithout(was.running, k, needsGpu, key);
    }
  }

  lemma NoGpuAdmitted(plan: Plan, l: Ledger, es: seq<Event>, s: nat, j: Job)
    requires Clears(plan, l, es, s, j) && NonNegative(UsageOf(l.book, j.key))
    requires j.key in plan.tiers && plan.tiers[j.key] == "free"
    requires j.key in plan.quotas ==> plan.quotas[j.key].gpuMax.None?
    ensures !j.needsGpu
  {
    QuotaLayers(plan, j.key);
    ClearedIsAdmitted(plan, l, es, s, j);
    AdmitsIffFits(plan, Run(l, es).book, j);
    StaysNonNegative(l, es, j.key);
    hide Run, Clears, Admits, QuotaFor;
  }

  /** Some charge or release of the run is about this subject. */
  predicate Touches(es: seq<Event>, key: string) {
    exists e :: e in es && (ChargesTo(e, key) || ReleasesOf(e, key))
  }

  /** Spend is never given back: releases keep it and no charge of the run is negative. */
  lemma {:induction false} SpendOnlyGrows(l: Ledger, es: seq<Event>, key: string)
    requires forall e :: e in es && ChargesTo(e, key) ==> e.job.cost >= 0
    ensures UsageOf(Run(l, es).book, key).cost >= UsageOf(l.book, key).cost
  {
    if es == [] {
    } else {
      assert es[|es| - 1] in es;
      SpendOnlyGrows(l, es[..|es| - 1], key);
    }
  }

  /** A run leaves the usage and the running jobs of every subject it charges and releases nothing for alone,
      checks notwithstanding. */
  lemma {:induction false} OthersUntouched(l: Ledger, es: seq<Event>, key: string)
    requires !Touches(es, key)
    ensures UsageOf(Run(l, es).book, key) == UsageOf(l.book, key)
    ensures RunningFor(Run(l, es).running, key) == RunningFor(l.running, key)
  {
    if es == [] {
    } else {
      var before, e := Run(l, es[..|es| - 1]), es[|es| - 1];
      assert e in es;
      OthersUntouched(l, es[..|es| - 1], key);
      match e
      case Check(j) =>
      case Charge(j) =>
        CountSnoc(before.running, j, key);
      case Release(k, needsGpu) =>
        CountWithout(before.running, k, needsGpu, key);
    }
  }
}
